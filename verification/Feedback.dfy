/** deployment/internal/feedback/feedback.go: the watcher itself, which updates its services and messages in place. */
module Feedback {
  import opened Sequences
  import opened Activities
  import opened DeployStates
  import opened LiveMessages
  import opened RetryHeader
  import opened WatchRuns

  const TICK := "\U{2714}"
  const CROSS := "\U{2716}"

  class Swatch {
    const serviceID: string
    const msg: Message
    var current: Option<Kind>
    var visited: set<Kind>

    constructor (serviceID: string, msg: Message)
      ensures this.serviceID == serviceID && this.msg == msg
      ensures current == None && visited == {}
    {
      this.serviceID, this.msg := serviceID, msg;
      current, visited := None, {};
    }
  }

  class Watch {
    const onlyBuild: bool
    const quiet: bool
    /** The rendered status line of a service; colors and wording are not modelled. */
    const render: (string, Kind) -> string
    /** What the watcher is doing, as its header says it. */
    const actionMessage: string
    const header: Message
    const wlm: WaitLiveMsg
    var onlyBuildServices: set<string>
    var states: map<string, Swatch>
    var printed: seq<(string, Kind)>

    ghost function Messages(): set<object>
      reads this`states
    {
      set id | id in states :: states[id].msg
    }

    ghost function Owned(): set<object>
      reads this`states
    {
      states.Values + Messages()
    }

    ghost function ModeOf(): Mode
      reads this`onlyBuildServices
    {
      Mode(onlyBuild, onlyBuildServices)
    }

    /** The message shows the current kind, and it spins exactly until the service reaches a final state. */
    static ghost predicate Shows(m: Mode, render: (string, Kind) -> string, id: string, sw: Swatch)
      reads sw, sw.msg
    {
      && sw.serviceID == id
      && (sw.current.Some? ==>
            IsValidState(m, id, sw.current.value) && sw.msg.text == render(id, sw.current.value))
      && (sw.msg.Stopped() <==> IsFinalState(m, id, ProgressOf(sw)))
    }

    /** The services and their messages are distinct objects. */
    ghost predicate Separated()
      reads this`states
    {
      && header !in Owned() && wlm !in Owned()
      && forall i, j :: i in states && j in states && i != j ==>
                        states[i] != states[j] && states[i].msg != states[j].msg
    }

    ghost predicate Valid()
      reads this`states, this`onlyBuildServices, Owned()
    {
      && Separated()
      && forall id :: id in states ==> Shows(ModeOf(), render, id, states[id])
    }

    static ghost function ProgressOf(sw: Swatch): Progress
      reads sw
    {
      Progress(sw.current, sw.visited)
    }

    ghost function Snapshot(): States
      reads this`states, states.Values
    {
      map id | id in states :: ProgressOf(states[id])
    }

    lemma SnapshotIs(st: States)
      requires states.Keys == st.Keys
      requires forall id :: id in states ==> ProgressOf(states[id]) == st[id]
      ensures Snapshot() == st
    {}

    constructor (onlyBuild: bool, quiet: bool, render: (string, Kind) -> string, actionMessage: string)
      ensures Valid() && fresh(wlm) && fresh(header)
      ensures this.onlyBuild == onlyBuild && this.quiet == quiet && this.render == render
      ensures this.actionMessage == actionMessage
      ensures onlyBuildServices == {} && printed == [] && states == map[] && wlm.msgs == []
    {
      this.onlyBuild, this.quiet, this.render, this.actionMessage := onlyBuild, quiet, render, actionMessage;
      header := new Message("");
      wlm := new WaitLiveMsg();
      onlyBuildServices, states, printed := {}, map[], [];
    }

    /** Every displayed message is another one, and every service has its message on display. */
    ghost predicate Displayed()
      reads this`states, wlm
    {
      NoDuplicates(wlm.msgs) && forall id :: id in states ==> states[id].msg in wlm.msgs
    }

    method Register(sw: Swatch)
      requires Valid() && sw !in Owned() && sw.msg !in Owned() && sw.msg != header
      requires ProgressOf(sw) == Progress(None, {}) && !sw.msg.Stopped()
      modifies this`states
      ensures Valid() && states == old(states)[sw.serviceID := sw]
      ensures Owned() <= old(Owned()) + {sw, sw.msg}
      ensures Snapshot() == old(Snapshot())[sw.serviceID := Progress(None, {})]
    {
      ghost var was, st := states, Snapshot();
      states := states[sw.serviceID := sw];
      forall id | id in states
        ensures Shows(ModeOf(), render, id, states[id])
        ensures id != sw.serviceID ==> states[id] in was.Values && states[id].msg in old(Messages())
      {
        assert id != sw.serviceID ==> Shows(ModeOf(), render, id, was[id]);
      }
      SnapshotIs(st[sw.serviceID := Progress(None, {})]);
    }

    /** All but the message of the service are on display. */
    ghost predicate DisplayedBut(id: string)
      reads this`states, wlm
    {
      && id in states && NoDuplicates(wlm.msgs) && states[id].msg !in wlm.msgs
      && forall j :: j in states && j != id ==> states[j].msg in wlm.msgs
    }

    method RegisterNew(sw: Swatch)
      requires Valid() && Displayed() && sw.msg !in wlm.msgs
      requires sw !in Owned() && sw.msg !in Owned() && sw.msg != header
      requires ProgressOf(sw) == Progress(None, {}) && !sw.msg.Stopped()
      modifies this`states
      ensures Valid() && DisplayedBut(sw.serviceID)
      ensures Owned() <= old(Owned()) + {sw, sw.msg}
      ensures Snapshot() == old(Snapshot())[sw.serviceID := Progress(None, {})]
    {
      Register(sw);
    }

    method Display(id: string)
      requires Valid() && DisplayedBut(id)
      modifies wlm
      ensures Valid() && Displayed() && Snapshot() == old(Snapshot())
    {
      wlm.AddMessage(states[id].msg);
      assert wlm.msgs[|wlm.msgs| - 1] == states[id].msg;
    }

    method NewSwatch(id: string) returns (sw: Swatch)
      ensures fresh(sw) && fresh(sw.msg) && sw.msg !in wlm.msgs
      ensures sw.serviceID == id && ProgressOf(sw) == Progress(None, {}) && !sw.msg.Stopped()
    {
      var m := new Message("Waiting " + id);
      sw := new Swatch(id, m);
    }

    /** One turn of the loop of createServicesActivitiesMap. */
    method AddService(id: string)
      requires Valid() && Displayed()
      modifies this`states, wlm
      ensures Valid() && Displayed() && fresh(Owned() - old(Owned()))
      ensures Snapshot() == old(Snapshot())[id := Progress(None, {})]
    {
      var sw := NewSwatch(id);
      AddSwatch(sw);
    }

    method AddSwatch(sw: Swatch)
      requires Valid() && Displayed() && sw.msg !in wlm.msgs
      requires sw !in Owned() && sw.msg !in Owned() && sw.msg != header
      requires ProgressOf(sw) == Progress(None, {}) && !sw.msg.Stopped()
      modifies this`states, wlm
      ensures Valid() && Displayed()
      ensures Owned() <= old(Owned()) + {sw, sw.msg}
      ensures Snapshot() == old(Snapshot())[sw.serviceID := Progress(None, {})]
    {
      RegisterNew(sw);
      Display(sw.serviceID);
    }

    /** Services without progress. */
    static function Waiting(services: seq<string>): States {
      map id | id in services :: Progress(None, {})
    }

    static lemma WaitingOneMore(services: seq<string>, i: nat)
      requires i < |services|
      ensures Waiting(services[..i + 1]) == Waiting(services[..i])[services[i] := Progress(None, {})]
    {
      assert services[..i + 1] == services[..i] + [services[i]];
    }

    /** createServicesActivitiesMap: every service waits, with a message on display. */
    method CreateServicesActivitiesMap(services: seq<string>)
      requires Valid() && Displayed() && states == map[]
      modifies this`states, wlm
      ensures Valid() && Displayed()
      ensures Snapshot() == Waiting(services)
    {
      for i := 0 to |services|
        invariant Valid() && Displayed()
        invariant Snapshot() == Waiting(services[..i])
      {
        WaitingOneMore(services, i);
        AddService(services[i]);
      }
      assert services[..|services|] == services;
    }

    /** updateActivitiesStateMessage: the message plays for steps under way, and stops otherwise. */
    method UpdateActivitiesStateMessage(id: string, k: Kind)
      requires id in states
      modifies states[id].msg, `printed
      ensures states[id].msg.text == render(id, k)
      ensures IsValidState(ModeOf(), id, k) ==>
                (states[id].msg.Stopped() <==> IsThrough(onlyBuild || id in onlyBuildServices, Some(k)))
      ensures printed == if quiet && k !in states[id].visited then old(printed) + [(id, k)] else old(printed)
    {
      var sw := states[id];
      var m := sw.msg;
      if onlyBuild || id in onlyBuildServices {
        if k.BuildStarted? || k.BuildPushed? {
          m.PlayText(render(id, k));
        } else {
          m.StopText(render(id, k));
        }
      } else {
        if k.BuildStarted? || k.BuildPushed? || k.BuildSucceeded? ||
           k.DeployCreated? || k.DeployPending? || k.DeployStarted? {
          m.PlayText(render(id, k));
        } else {
          m.StopText(render(id, k));
        }
      }
      if quiet && k !in sw.visited {
        printed := printed + [(id, k)];
      }
    }

    /** One turn of the loop of sync. */
    method SyncOne(a: Activity)
      requires Valid()
      modifies Owned(), `printed
      ensures Valid()
      ensures Snapshot() == Step(ModeOf(), old(Snapshot()), a)
      ensures printed == old(printed) +
                         if quiet && Accepts(ModeOf(), old(Snapshot()), a) then [(a.serviceId.value, a.kind)] else []
    {
      if a.serviceId.None? || a.serviceId.value !in states {
        return;
      }
      var id := a.serviceId.value;
      if !IsValidState(Mode(onlyBuild, onlyBuildServices), id, a.kind) {
        return;
      }
      var sw := states[id];
      if a.kind in sw.visited {
        return;
      }
      Visit(id, a.kind);
    }

    /** What sync does with an activity that it accepts. */
    method Visit(id: string, k: Kind)
      requires Valid() && id in states && IsValidState(ModeOf(), id, k) && k !in states[id].visited
      modifies states[id], states[id].msg, `printed
      ensures Valid()
      ensures Snapshot() == old(Snapshot())[id := Advance(old(Snapshot())[id], k)]
      ensures printed == old(printed) + if quiet then [(id, k)] else []
    {
      ghost var st := Snapshot();
      var sw := states[id];
      UpdateActivitiesStateMessage(id, k);
      sw.current := Some(k);
      sw.visited := sw.visited + {k};
      forall j | j in states && j != id
        ensures ProgressOf(states[j]) == st[j]
        ensures Shows(ModeOf(), render, j, states[j])
      {
        assert old(Shows(ModeOf(), render, j, states[j]));
      }
      assert Shows(ModeOf(), render, id, sw);
      SnapshotIs(st[id := Advance(st[id], k)]);
    }

    method Sync(log: seq<Activity>)
      requires Valid()
      modifies Owned(), `printed
      ensures Valid()
      ensures Snapshot() == DeployStates.Sync(ModeOf(), old(Snapshot()), log)
      ensures printed == old(printed) + if quiet then Printed(ModeOf(), old(Snapshot()), log) else []
    {
      ghost var st, was := Snapshot(), printed;
      for i := 0 to |log|
        invariant Valid()
        invariant Snapshot() == DeployStates.Sync(ModeOf(), st, log[..i])
        invariant printed == was + if quiet then Printed(ModeOf(), st, log[..i]) else []
      {
        assert log[..i + 1][..i] == log[..i];
        SyncOne(log[i]);
      }
      assert log[..|log|] == log;
    }

    /** updateActivitiesStates after a successful request: sort, sync, and look for a service that is not final. */
    method UpdateActivitiesStates(log: seq<Activity>) returns (end: bool)
      requires Valid()
      modifies Owned(), `printed
      ensures Valid() && header.text == old(header.text)
      ensures Snapshot() == DeployStates.Sync(ModeOf(), old(Snapshot()), StableSorted(log))
      ensures end <==> AllFinal(ModeOf(), Snapshot())
      ensures printed == old(printed) + if quiet then Printed(ModeOf(), old(Snapshot()), StableSorted(log)) else []
    {
      var sorted := List(log);
      end := SyncSorted(sorted);
    }

    method SyncSorted(sorted: seq<Activity>) returns (end: bool)
      requires Valid()
      modifies Owned(), `printed
      ensures Valid() && header.text == old(header.text)
      ensures Snapshot() == DeployStates.Sync(ModeOf(), old(Snapshot()), sorted)
      ensures end <==> AllFinal(ModeOf(), Snapshot())
      ensures printed == old(printed) + if quiet then Printed(ModeOf(), old(Snapshot()), sorted) else []
    {
      Sync(sorted);
      end := AllServicesFinal();
    }

    method AllServicesFinal() returns (end: bool)
      ensures end <==> AllFinal(ModeOf(), Snapshot())
    {
      var rest := states.Keys;
      while rest != {}
        invariant rest <= states.Keys
        invariant forall id :: id in states && id !in rest ==> IsFinalState(ModeOf(), id, ProgressOf(states[id]))
        decreases rest
      {
        var id :| id in rest;
        var final := IsFinal(id);
        if !final {
          assert !IsFinalState(ModeOf(), id, Snapshot()[id]);
          return false;
        }
        rest := rest - {id};
      }
      return true;
    }

    method IsFinal(id: string) returns (final: bool)
      requires id in states
      ensures final <==> IsThrough(onlyBuild || id in onlyBuildServices, states[id].current)
    {
      var p := Progress(states[id].current, states[id].visited);
      if onlyBuild || id in onlyBuildServices {
        final := IsBuildFinalState(p);
      } else {
        final := IsDeployFinalState(p);
      }
    }

    /** wait, over the polls that it would make. */
    method Wait(polls: seq<Poll>) returns (verdict: Verdict)
      requires Valid()
      modifies Owned(), header, `printed
      ensures Valid()
      ensures WatchState(Snapshot(), header.text, verdict) ==
              Run(ModeOf(), WatchState(old(Snapshot()), old(header.text), Watching), polls)
      ensures printed == old(printed) +
                         if quiet
                         then PrintedBy(ModeOf(), WatchState(old(Snapshot()), old(header.text), Watching), polls)
                         else []
    {
      verdict := Watching;
      ghost var w, was := WatchState(Snapshot(), header.text, Watching), printed;
      ghost var lines: seq<(string, Kind)> := [];
      for i := 0 to |polls|
        invariant Valid()
        invariant WatchState(Snapshot(), header.text, verdict) == Run(ModeOf(), w, polls[..i])
        invariant lines == PrintedBy(ModeOf(), w, polls[..i]) && printed == was + if quiet then lines else []
      {
        OnePollMore(ModeOf(), w, polls, i);
        ghost var more := PrintedByPoll(ModeOf(), Run(ModeOf(), w, polls[..i]), polls[i]);
        assert was + lines + more == was + (lines + more);
        if verdict == Watching {
          verdict := Turn(polls[i]);
        }
        lines := lines + more;
      }
      assert polls[..|polls|] == polls;
    }

    method PlayHeader(text: string)
      requires Valid()
      modifies header
      ensures Valid() && Snapshot() == old(Snapshot()) && header.text == text
    {
      header.PlayText(text);
    }

    /** One turn of the loop of wait. */
    method Turn(poll: Poll) returns (verdict: Verdict)
      requires Valid()
      modifies Owned(), header, `printed
      ensures Valid()
      ensures WatchState(Snapshot(), header.text, verdict) ==
              PollStep(ModeOf(), WatchState(old(Snapshot()), old(header.text), Watching), poll)
      ensures printed == old(printed) +
                         if quiet
                         then PrintedByPoll(ModeOf(), WatchState(old(Snapshot()), old(header.text), Watching), poll)
                         else []
    {
      match poll {
        case Canceled =>
          return Interrupted;
        case Failed(notFound) =>
          var stepText := header.GetText();
          PlayHeader(UpdateCounter(stepText));
          return if notFound then Gone else Watching;
        case Response(log) =>
          var end := UpdateActivitiesStates(log);
          ClearHeader();
          return if end then Finished else Watching;
      }
    }

    /** clearMessageErrorStringCounter, when the header has a counter. */
    method ClearHeader()
      requires Valid()
      modifies header
      ensures Valid() && Snapshot() == old(Snapshot())
      ensures var was := old(header.text);
              header.text == if Contains(was, HINT) then ClearCounter(was) else was
    {
      var stepText := header.GetText();
      if Contains(stepText, HINT) {
        PlayHeader(ClearCounter(stepText));
      }
    }

    /** getFinalActivitiesStates walks the map in any order. */
    method GetFinalActivitiesStates() returns (f: Final)
      ensures Classifies(f, Snapshot())
    {
      f := Final([], [], [], [], []);
      var rest := states.Keys;
      ghost var done: States := map[];
      while rest != {}
        invariant rest <= states.Keys && done.Keys == states.Keys - rest
        invariant forall id :: id in done ==> done[id] == ProgressOf(states[id])
        invariant Classifies(f, done)
        decreases rest
      {
        var id :| id in rest;
        rest := rest - {id};
        ClassifyOne(f, done, id, ProgressOf(states[id]));
        done := done[id := ProgressOf(states[id])];
        match states[id].current {
          case Some(BuildFailed) => f := f.(buildFailed := f.buildFailed + [id]);
          case Some(DeployFailed) => f := f.(deployFailed := f.deployFailed + [id]);
          case Some(DeployCanceled) => f := f.(deployCanceled := f.deployCanceled + [id]);
          case Some(DeployTimeout) => f := f.(deployTimeout := f.deployTimeout + [id]);
          case Some(DeployRollback) => f := f.(deployRollback := f.deployRollback + [id]);
          case _ =>
        }
      }
      assert done == Snapshot();
    }

    ghost function MessageOf(): map<string, Message>
      reads this`states
    {
      map id | id in states :: states[id].msg
    }

    /** setFinalStates: the error is nil (None) when every list is empty. Otherwise it names, in the order
        of the lists, each service in one of them. */
    method SetFinalStates() returns (f: Final, error: Option<seq<string>>)
      ensures Classifies(f, Snapshot())
      ensures var all := f.buildFailed + f.deployFailed + f.deployCanceled + f.deployTimeout + f.deployRollback;
              error == if all == [] then None else Some(all)
    {
      f := GetFinalActivitiesStates();
      if |f.buildFailed| == 0 && |f.deployFailed| == 0 && |f.deployCanceled| == 0 &&
         |f.deployTimeout| == 0 && |f.deployRollback| == 0 {
        return f, None;
      }
      error := Some(f.buildFailed + f.deployFailed + f.deployCanceled + f.deployTimeout + f.deployRollback);
    }

    /** reorderDeployments, given the order that the server reports. What is displayed is only permuted,
        unless the order repeats a service. */
    method ReorderDeployments(order: seq<string>)
      requires Valid() && Displayed()
      modifies wlm
      ensures Valid() && Snapshot() == old(Snapshot())
      ensures wlm.msgs == Reordered(old(wlm.msgs), order, MessageOf())
      ensures multiset(wlm.msgs) == multiset(old(wlm.msgs)) <==> NoDuplicates(Filter(order, Known(MessageOf())))
    {
      ReorderingConserves(wlm.msgs, order, MessageOf());
      RemoveListed(order);
      AddListed(order);
    }

    method RemoveListed(order: seq<string>)
      requires Valid()
      modifies wlm
      ensures Valid() && Snapshot() == old(Snapshot())
      ensures wlm.msgs == Filter(old(wlm.msgs), Except(Listed(order, MessageOf())))
    {
      ghost var was := wlm.msgs;
      RemovingNothing(was);
      for i := 0 to |order|
        invariant wlm.msgs == Filter(was, Except(Listed(order[..i], MessageOf())))
      {
        assert order[..i + 1][..i] == order[..i];
        if order[i] in states {
          RemovingTwice(was, Listed(order[..i], MessageOf()), states[order[i]].msg);
          wlm.RemoveMessage(states[order[i]].msg);
        }
      }
      assert order[..|order|] == order;
    }

    method AddListed(order: seq<string>)
      requires Valid()
      modifies wlm
      ensures Valid() && Snapshot() == old(Snapshot())
      ensures wlm.msgs == old(wlm.msgs) + Listed(order, MessageOf())
    {
      ghost var was := wlm.msgs;
      for i := 0 to |order|
        invariant wlm.msgs == was + Listed(order[..i], MessageOf())
      {
        assert order[..i + 1][..i] == order[..i];
        if order[i] in states {
          wlm.AddMessage(states[order[i]].msg);
        }
      }
      assert order[..|order|] == order;
    }

    /** markBuildOnlyServices, given for each build its service and whether it skipped the deployment. */
    method MarkBuildOnlyServices(builds: seq<(string, bool)>)
      requires Valid() && forall id :: id in states ==> states[id].current == None
      modifies `onlyBuildServices
      ensures Valid() && Snapshot() == old(Snapshot())
      ensures onlyBuildServices == old(onlyBuildServices) + set b | b in builds && (onlyBuild || b.1) :: b.0
    {
      ghost var was, st := onlyBuildServices, Snapshot();
      assert forall id :: id in states ==> Shows(ModeOf(), render, id, states[id]);
      for i := 0 to |builds|
        invariant Snapshot() == st
        invariant onlyBuildServices == was + set b | b in builds[..i] && (onlyBuild || b.1) :: b.0
      {
        assert builds[..i + 1] == builds[..i] + [builds[i]];
        if onlyBuild || builds[i].1 {
          onlyBuildServices := onlyBuildServices + {builds[i].0};
        }
      }
      assert builds[..|builds|] == builds;
    }

    /** finishError: the header fails, and every service that is not final is left with a question mark. */
    method FinishError()
      requires Valid()
      modifies header, Messages()
      ensures Snapshot() == old(Snapshot())
      ensures header.text == CROSS + " " + actionMessage && header.Stopped()
      ensures AllStopped()
    {
      FailHeader();
      StopAll();
    }

    method FailHeader()
      requires Valid()
      modifies header
      ensures Valid() && Snapshot() == old(Snapshot())
      ensures header.text == CROSS + " " + actionMessage && header.Stopped()
    {
      header.StopText(CROSS + " " + actionMessage);
    }

    /** The message has stopped, with a question mark if the service is not final. */
    static ghost predicate ShowsEnd(m: Mode, render: (string, Kind) -> string, id: string, sw: Swatch)
      reads sw, sw.msg
    {
      && sw.msg.Stopped()
      && (sw.current.Some? ==>
            sw.msg.text == (if IsFinalState(m, id, ProgressOf(sw)) then "" else "? ") + render(id, sw.current.value))
    }

    ghost predicate AllStopped()
      reads this`states, this`onlyBuildServices, Owned()
    {
      forall id :: id in states ==> ShowsEnd(ModeOf(), render, id, states[id])
    }

    /** The loop of finishError, in any order of the map. */
    method StopAll()
      requires Valid()
      modifies Messages()
      ensures Snapshot() == old(Snapshot()) && AllStopped()
    {
      var rest := states.Keys;
      while rest != {}
        invariant rest <= states.Keys
        invariant forall id :: id in rest ==> Shows(ModeOf(), render, id, states[id])
        invariant forall id :: id in states && id !in rest ==> ShowsEnd(ModeOf(), render, id, states[id])
        decreases rest
      {
        var id :| id in rest;
        StopOne(id);
        rest := rest - {id};
      }
    }

    method StopOne(id: string)
      requires id in states && Shows(ModeOf(), render, id, states[id])
      modifies states[id].msg
      ensures ShowsEnd(ModeOf(), render, id, states[id])
    {
      var final := IsFinal(id);
      if !final {
        var text := states[id].msg.GetText();
        states[id].msg.StopText("? " + text);
      }
    }

    /** When polling ends by itself, the error names exactly the services that did not reach their own success:
        it is nil iff all of them did. */
    ghost predicate NamesFailures(verdict: Verdict, error: Option<seq<string>>)
      reads this`states, this`onlyBuildServices, states.Values
    {
      if verdict == Finished then
        && (error == None <==> forall id :: id in Snapshot() ==> !IsShort(ModeOf(), Snapshot(), id))
        && (error.Some? ==>
              && NoDuplicates(error.value)
              && forall id :: id in error.value <==> IsShort(ModeOf(), Snapshot(), id))
      else error == None
    }

    /** The header ends with the final action message, a tick for success and a cross for every other end. */
    ghost predicate HeaderEnds(verdict: Verdict, error: Option<seq<string>>)
      reads header
    {
      && header.Stopped()
      && header.text == (if verdict == Finished && error == None then TICK else CROSS) + " " + actionMessage
    }

    /** The polling and the end of Wait. While the polls do not end the loop, nothing but the loop has happened. */
    method WaitForVerdict(polls: seq<Poll>) returns (verdict: Verdict, error: Option<seq<string>>)
      requires Valid() && OnlyValid(ModeOf(), Snapshot())
      modifies Owned(), header, `printed
      ensures var w := WatchState(old(Snapshot()), old(header.text), Watching);
              && Snapshot() == Run(ModeOf(), w, polls).states && verdict == Run(ModeOf(), w, polls).verdict
              && (verdict == Watching ==> header.text == Run(ModeOf(), w, polls).header)
              && printed == old(printed) + if quiet then PrintedBy(ModeOf(), w, polls) else []
      ensures NamesFailures(verdict, error)
      ensures verdict != Watching ==> HeaderEnds(verdict, error)
      ensures if verdict == Gone || verdict == Interrupted then AllStopped() else Valid()
    {
      ghost var w := WatchState(Snapshot(), header.text, Watching);
      verdict := Wait(polls);
      error := EndWait(verdict, w, polls);
    }

    /** What Wait does once the loop has returned. */
    method EndWait(verdict: Verdict, ghost w: WatchState, ghost polls: seq<Poll>) returns (error: Option<seq<string>>)
      requires Valid() && w.verdict == Watching && OnlyValid(ModeOf(), w.states)
      requires Run(ModeOf(), w, polls).verdict == verdict && Run(ModeOf(), w, polls).states == Snapshot()
      modifies header, Messages()
      ensures Snapshot() == old(Snapshot()) && NamesFailures(verdict, error)
      ensures if verdict == Watching then header.text == old(header.text) else HeaderEnds(verdict, error)
      ensures if verdict == Gone || verdict == Interrupted then AllStopped() else Valid()
    {
      error := None;
      match verdict {
        case Watching =>
        case Finished =>
          error := NameFailures(w, polls);
          Notify(error == None);
        case _ => FinishError();
      }
    }

    /** notifySucceeded and notifyFailed. */
    method Notify(succeeded: bool)
      requires Valid()
      modifies header
      ensures Valid() && Snapshot() == old(Snapshot())
      ensures header.Stopped() && header.text == (if succeeded then TICK else CROSS) + " " + actionMessage
    {
      header.StopText((if succeeded then TICK else CROSS) + " " + actionMessage);
    }

    /** The error after a run that finished. */
    method NameFailures(ghost w: WatchState, ghost polls: seq<Poll>) returns (error: Option<seq<string>>)
      requires w.verdict == Watching && OnlyValid(ModeOf(), w.states)
      requires Run(ModeOf(), w, polls).verdict == Finished && Run(ModeOf(), w, polls).states == Snapshot()
      ensures NamesFailures(Finished, error)
    {
      var f;
      f, error := SetFinalStates();
      OutcomeIsExact(ModeOf(), w, polls, f);
    }

    /** With only-build, or once a build of the service skipped the deployment, the service is only built. */
    ghost predicate IsOnlyBuilt(was: set<string>, builds: seq<(string, bool)>, id: string) {
      onlyBuild || id in was || exists b :: b in builds && b.0 == id && b.1
    }

    /** The poll at i is a response that leaves every service at the end of what is done with it. */
    ghost predicate CompletesAll(was: set<string>, builds: seq<(string, bool)>, m: Mode, w: WatchState,
                                 polls: seq<Poll>, i: int)
    {
      && Makes(m, w, polls, i) && polls[i].Response?
      && var st := Run(m, w, polls[..i + 1]).states;
         forall id :: id in st ==> IsThrough(IsOnlyBuilt(was, builds, id), st[id].current)
    }

    /** The error of a run that finished names the services that are not at the success of what is done with them. */
    ghost predicate NamesShort(was: set<string>, builds: seq<(string, bool)>, st: States, error: Option<seq<string>>) {
      && (error == None <==> forall id :: id in st ==> ReachedSuccess(IsOnlyBuilt(was, builds, id), st[id].current))
      && (error.Some? ==>
            && NoDuplicates(error.value)
            && forall id :: id in error.value <==>
                 id in st && !ReachedSuccess(IsOnlyBuilt(was, builds, id), st[id].current))
    }

    lemma MarkedAreOnlyBuilt(was: set<string>, builds: seq<(string, bool)>, m: Mode)
      requires m == Mode(onlyBuild, was + set b | b in builds && (onlyBuild || b.1) :: b.0)
      ensures forall id :: (m.onlyBuild || id in m.buildOnly) <==> IsOnlyBuilt(was, builds, id)
    {}

    lemma CompletionIs(was: set<string>, builds: seq<(string, bool)>, m: Mode, w: WatchState, polls: seq<Poll>)
      requires m == Mode(onlyBuild, was + set b | b in builds && (onlyBuild || b.1) :: b.0)
      requires w.verdict == Watching
      ensures Run(m, w, polls).verdict == Finished <==> exists i :: CompletesAll(was, builds, m, w, polls, i)
    {
      VerdictsAre(m, w, polls);
      MarkedAreOnlyBuilt(was, builds, m);
      forall i ensures Completes(m, w, polls, i) <==> CompletesAll(was, builds, m, w, polls, i) {}
    }

    lemma NamesShortIs(was: set<string>, builds: seq<(string, bool)>, m: Mode, st: States, error: Option<seq<string>>)
      requires m == Mode(onlyBuild, was + set b | b in builds && (onlyBuild || b.1) :: b.0)
      requires error == None <==> forall id :: id in st ==> !IsShort(m, st, id)
      requires error.Some? ==> NoDuplicates(error.value) && forall id :: id in error.value <==> IsShort(m, st, id)
      ensures NamesShort(was, builds, st, error)
    {
      MarkedAreOnlyBuilt(was, builds, m);
      forall id | id in st
        ensures IsShort(m, st, id) <==> !ReachedSuccess(IsOnlyBuilt(was, builds, id), st[id].current)
      {}
    }

    /** Wait, from fresh services to the verdict: the services, the verdict and the printed lines are those of the run
        over the polls from services without progress. It finishes exactly when a response leaves every service that is
        only built at the end of its build, and every other one at the end of its deployment or a failed build;
        and without an error exactly when all of these are successes. */
    method WaitDeployment(builds: seq<(string, bool)>, order: seq<string>, polls: seq<Poll>)
      returns (verdict: Verdict, error: Option<seq<string>>)
      requires Valid() && Displayed()
      requires forall id :: id in Snapshot() ==> Snapshot()[id] == Progress(None, {})
      modifies Owned(), header, wlm, `onlyBuildServices, `printed
      ensures onlyBuildServices == old(onlyBuildServices) + set b | b in builds && (onlyBuild || b.1) :: b.0
      ensures wlm.msgs == Reordered(old(wlm.msgs), order, MessageOf())
      ensures var w := WatchState(old(Snapshot()), old(header.text), Watching);
              && Snapshot() == Run(ModeOf(), w, polls).states && verdict == Run(ModeOf(), w, polls).verdict
              && (verdict == Watching ==> header.text == Run(ModeOf(), w, polls).header)
              && printed == old(printed) + if quiet then PrintedBy(ModeOf(), w, polls) else []
      ensures var w := WatchState(old(Snapshot()), old(header.text), Watching);
              verdict == Finished <==>
              exists i :: CompletesAll(old(onlyBuildServices), builds, ModeOf(), w, polls, i)
      ensures if verdict == Finished then NamesShort(old(onlyBuildServices), builds, Snapshot(), error)
              else error == None
      ensures verdict != Watching ==> HeaderEnds(verdict, error)
      ensures if verdict == Gone || verdict == Interrupted then AllStopped() else Valid()
    {
      assert forall id :: id in states ==> Snapshot()[id] == Progress(None, {});
      ghost var was, w := onlyBuildServices, WatchState(Snapshot(), header.text, Watching);
      Prepare(builds, order);
      verdict, error := WaitForVerdict(polls);
      CompletionIs(was, builds, ModeOf(), w, polls);
      if verdict == Finished {
        NamesShortIs(was, builds, ModeOf(), Snapshot(), error);
      }
    }

    /** What Wait does before the loop. */
    method Prepare(builds: seq<(string, bool)>, order: seq<string>)
      requires Valid() && Displayed() && forall id :: id in states ==> states[id].current == None
      modifies wlm, `onlyBuildServices
      ensures Valid() && Snapshot() == old(Snapshot())
      ensures onlyBuildServices == old(onlyBuildServices) + set b | b in builds && (onlyBuild || b.1) :: b.0
      ensures wlm.msgs == Reordered(old(wlm.msgs), order, MessageOf())
    {
      MarkBuildOnlyServices(builds);
      ReorderDeployments(order);
    }
  }
}
