/** diagnostics/diagnostics.go: the bounded concurrent runner, as interleaved steps of the launching process,
    one goroutine for each executable, the collector of the report, and whoever cancels the parent context. */
module Diagnostics {
  import opened Sequences

  datatype Job = Job(commands: seq<string>, serial: bool)

  const CONCURRENCY_LIMIT: nat := 10

  function Limit(job: Job): nat {
    if job.serial then 1 else CONCURRENCY_LIMIT
  }

  /** A goroutine is launched, executes its command, writes the output, counts down the wait group, frees its slot. */
  datatype Worker = Idle | Launched | Executing | Written | Counted | Exited

  datatype Launcher = Sending(next: nat) | Spawning(next: nat) | AwaitingQueue | Canceling | Returned

  datatype Collector = AwaitingDone | Reading(next: nat, report: string) | Reported(report: string)

  datatype State = State(
    launcher: Launcher,
    workers: seq<Worker>,
    outputs: seq<Option<string>>,
    slots: nat,
    pending: nat,
    canceled: bool,
    parentCanceled: bool,
    collector: Collector)

  datatype Action =
    | Acquire | Spawn | LeaveLoop | QueueEmpty | Cancel
    | Begin(id: nat) | Write(id: nat, output: string) | CountDown(id: nat) | Release(id: nat)
    | StartReport | CollectOne | FinishReport
    | CancelParent

  /** How Collect appends what it has of one executable. */
  function AddEntry(report: string, command: string, output: string): string {
    var r := report + "$ " + command + "\n" + output;
    if r[|r| - 1] != '\n' then r + "\n" else r
  }

  /** Collect once the context is done: one entry for each executable, in the order of the list. */
  method Collect(commands: seq<string>, outputs: seq<string>) returns (r: string)
    requires |outputs| == |commands|
    ensures r == Concat(Entries(commands, outputs))
  {
    r := "";
    for i := 0 to |commands|
      invariant r == Concat(Entries(commands[..i], outputs[..i]))
    {
      OneMoreEntry(commands, outputs, i);
      ghost var before := r;
      r := r + "$ " + commands[i] + "\n";
      r := r + outputs[i];
      if r[|r| - 1] != '\n' {
        r := r + "\n";
      }
      assert r == AddEntry(before, commands[i], outputs[i]);
    }
    assert commands[..|commands|] == commands && outputs[..|commands|] == outputs;
  }

  /** The entry of one executable: the line of its command and all of its output, with a line break at the end only
      where there is none yet. */
  function Entry(command: string, output: string): (entry: string)
    ensures "$ " + command + "\n" + output <= entry
    ensures entry[|entry| - 1] == '\n'
    ensures |entry| == |command| + |output| + if output == "" || output[|output| - 1] == '\n' then 3 else 4
  {
    "$ " + command + "\n" + output + if output != "" && output[|output| - 1] != '\n' then "\n" else ""
  }

  function Entries(commands: seq<string>, outputs: seq<string>): (entries: seq<string>)
    requires |outputs| == |commands|
    ensures |entries| == |commands|
  {
    seq(|commands|, i requires 0 <= i < |commands| => Entry(commands[i], outputs[i]))
  }

  /** An entry does not depend on the report before it. */
  lemma AddEntryAppends(report: string, command: string, output: string)
    ensures AddEntry(report, command, output) == report + Entry(command, output)
  {
    var r := report + "$ " + command + "\n" + output;
    assert r == report + ("$ " + command + "\n" + output);
    assert r[|r| - 1] == if output == "" then '\n' else output[|output| - 1];
  }

  lemma OneMoreEntry(commands: seq<string>, outputs: seq<string>, i: nat)
    requires |outputs| == |commands| && i < |commands|
    ensures Concat(Entries(commands[..i + 1], outputs[..i + 1])) ==
            AddEntry(Concat(Entries(commands[..i], outputs[..i])), commands[i], outputs[i])
  {
    var entries := Entries(commands[..i + 1], outputs[..i + 1]);
    assert entries[..i] == Entries(commands[..i], outputs[..i]);
    AddEntryAppends(Concat(entries[..i]), commands[i], outputs[i]);
  }

  function Init(job: Job): State {
    var n := |job.commands|;
    State(Sending(0), seq(n, _ => Idle), seq(n, _ => None), 0, n, false, false, AwaitingDone)
  }

  predicate IsAt(s: State, id: nat, w: Worker) {
    id < |s.workers| && s.workers[id] == w
  }

  predicate Enabled(job: Job, s: State, a: Action) {
    match a
    case Acquire => s.launcher.Sending? && s.launcher.next < |job.commands| && s.slots < Limit(job)
    case Spawn => s.launcher.Spawning?
    case LeaveLoop => s.launcher.Sending? && s.launcher.next == |job.commands|
    case QueueEmpty => s.launcher.AwaitingQueue? && s.pending == 0
    case Cancel => s.launcher.Canceling?
    case Begin(id) => IsAt(s, id, Launched)
    case Write(id, _) => IsAt(s, id, Executing)
    case CountDown(id) => IsAt(s, id, Written)
    case Release(id) => IsAt(s, id, Counted)
    case StartReport => s.collector.AwaitingDone? && (s.canceled || s.parentCanceled)
    case CollectOne => s.collector.Reading? && s.collector.next < |job.commands|
    case FinishReport => s.collector.Reading? && s.collector.next == |job.commands|
    case CancelParent => !s.parentCanceled
  }

  function Monus(n: nat): nat {
    if n == 0 then 0 else n - 1
  }

  function Read(s: State, i: nat): string {
    if i < |s.outputs| && s.outputs[i].Some? then s.outputs[i].value else ""
  }

  function Apply(job: Job, s: State, a: Action): State
    requires Enabled(job, s, a)
  {
    match a
    case Acquire => s.(slots := s.slots + 1, launcher := Spawning(s.launcher.next))
    case Spawn =>
      var i := s.launcher.next;
      s.(launcher := Sending(i + 1), workers := if i < |s.workers| then s.workers[i := Launched] else s.workers)
    case LeaveLoop => s.(launcher := AwaitingQueue)
    case QueueEmpty => s.(launcher := Canceling)
    case Cancel => s.(launcher := Returned, canceled := true)
    case Begin(id) => s.(workers := s.workers[id := Executing])
    case Write(id, output) =>
      s.(workers := s.workers[id := Written],
         outputs := if id < |s.outputs| then s.outputs[id := Some(output)] else s.outputs)
    case CountDown(id) => s.(workers := s.workers[id := Counted], pending := Monus(s.pending))
    case Release(id) => s.(workers := s.workers[id := Exited], slots := Monus(s.slots))
    case StartReport => s.(collector := Reading(0, ""))
    case CollectOne =>
      var k := s.collector.next;
      s.(collector := Reading(k + 1, AddEntry(s.collector.report, job.commands[k], Read(s, k))))
    case FinishReport => s.(collector := Reported(s.collector.report))
    case CancelParent => s.(parentCanceled := true)
  }

  /** A run is the sequence of actions taken; it is legal when each was enabled in its turn. */
  function Run(job: Job, acts: seq<Action>): State {
    if acts == [] then Init(job)
    else
      var s := Run(job, acts[..|acts| - 1]);
      if Enabled(job, s, acts[|acts| - 1]) then Apply(job, s, acts[|acts| - 1]) else s
  }

  ghost predicate Legal(job: Job, acts: seq<Action>) {
    acts != [] ==>
      && Legal(job, acts[..|acts| - 1])
      && Enabled(job, Run(job, acts[..|acts| - 1]), acts[|acts| - 1])
  }

  // ----- The invariant -----

  predicate HoldsSlot(w: Worker) {
    w.Launched? || w.Executing? || w.Written? || w.Counted?
  }

  predicate NotCounted(w: Worker) {
    w.Idle? || w.Launched? || w.Executing? || w.Written?
  }

  predicate HasWritten(w: Worker) {
    w.Written? || w.Counted? || w.Exited?
  }

  function Count(workers: seq<Worker>, p: Worker -> bool): nat {
    |Filter(workers, p)|
  }

  /** How many goroutines the loop has launched. */
  function LaunchedSoFar(job: Job, s: State): nat {
    if s.launcher.Sending? || s.launcher.Spawning? then s.launcher.next else |job.commands|
  }

  ghost predicate Inv(job: Job, s: State) {
    var n := |job.commands|;
    && |s.workers| == |s.outputs| == n
    && LaunchedSoFar(job, s) <= n
    && (s.launcher.Spawning? ==> s.launcher.next < n)
    && (forall i :: 0 <= i < n ==> (s.workers[i].Idle? <==> LaunchedSoFar(job, s) <= i))
    && s.slots == Count(s.workers, HoldsSlot) + (if s.launcher.Spawning? then 1 else 0)
    && s.slots <= Limit(job)
    && s.pending == Count(s.workers, NotCounted)
    && (forall i :: 0 <= i < n ==> (s.outputs[i].Some? <==> HasWritten(s.workers[i])))
    && (s.launcher.Canceling? || s.launcher.Returned? ==> s.pending == 0)
    && (s.canceled <==> s.launcher.Returned?)
    && (!s.collector.AwaitingDone? ==> s.canceled || s.parentCanceled)
    && (s.collector.Reading? ==> s.collector.next <= n)
  }

  lemma {:induction false} CountUpdate(ws: seq<Worker>, i: nat, w: Worker, p: Worker -> bool)
    requires i < |ws|
    ensures Count(ws[i := w], p) == Count(ws, p) - (if p(ws[i]) then 1 else 0) + (if p(w) then 1 else 0)
  {
    var n := |ws| - 1;
    if i < n {
      CountUpdate(ws[..n], i, w, p);
      assert ws[i := w][..n] == ws[..n][i := w];
    } else {
      assert ws[i := w][..n] == ws[..n];
    }
  }

  lemma {:induction false} CountIdle(n: nat)
    ensures Count(seq(n, _ => Idle), HoldsSlot) == 0 && Count(seq(n, _ => Idle), NotCounted) == n
  {
    if n == 0 {
    } else {
      CountIdle(n - 1);
      assert seq(n, _ => Idle)[..n - 1] == seq(n - 1, _ => Idle);
    }
  }

  lemma CountsSomeone(ws: seq<Worker>, p: Worker -> bool) returns (i: nat)
    requires Count(ws, p) > 0
    ensures i < |ws| && p(ws[i])
  {
    FilterElements(ws, p);
    var w := Filter(ws, p)[0];
    assert w in ws;
    i :| 0 <= i < |ws| && ws[i] == w;
  }

  lemma {:induction false} CountIsPositive(ws: seq<Worker>, i: nat, p: Worker -> bool)
    requires i < |ws| && p(ws[i])
    ensures Count(ws, p) > 0
  {
    FilterElements(ws, p);
    assert ws[i] in Filter(ws, p);
  }

  /** Where a step of a goroutine takes it. */
  function StepTo(a: Action): Worker {
    if a.Begin? then Executing else if a.Write? then Written else if a.CountDown? then Counted else Exited
  }

  lemma CountsUpdate(ws: seq<Worker>, i: nat, w: Worker)
    requires i < |ws|
    ensures Count(ws[i := w], HoldsSlot) ==
            Count(ws, HoldsSlot) - (if HoldsSlot(ws[i]) then 1 else 0) + (if HoldsSlot(w) then 1 else 0)
    ensures Count(ws[i := w], NotCounted) ==
            Count(ws, NotCounted) - (if NotCounted(ws[i]) then 1 else 0) + (if NotCounted(w) then 1 else 0)
  {
    CountUpdate(ws, i, w, HoldsSlot);
    CountUpdate(ws, i, w, NotCounted);
  }

  lemma SpawnKeepsInv(job: Job, s: State)
    requires Inv(job, s) && Enabled(job, s, Spawn)
    ensures Inv(job, Apply(job, s, Spawn))
  {
    CountsUpdate(s.workers, s.launcher.next, Launched);
  }

  lemma WorkerStepKeepsInv(job: Job, s: State, a: Action)
    requires Inv(job, s) && Enabled(job, s, a)
    requires a.Begin? || a.Write? || a.CountDown? || a.Release?
    ensures Inv(job, Apply(job, s, a))
  {
    CountsUpdate(s.workers, a.id, StepTo(a));
    if a.CountDown? {
      CountIsPositive(s.workers, a.id, NotCounted);
    }
    if a.Release? {
      CountIsPositive(s.workers, a.id, HoldsSlot);
    }
  }

  /** Every step keeps the invariant. */
  lemma StepKeepsInv(job: Job, s: State, a: Action)
    requires Inv(job, s) && Enabled(job, s, a)
    ensures Inv(job, Apply(job, s, a))
  {
    match a {
      case Spawn => SpawnKeepsInv(job, s);
      case Begin(_) => WorkerStepKeepsInv(job, s, a);
      case Write(_, _) => WorkerStepKeepsInv(job, s, a);
      case CountDown(_) => WorkerStepKeepsInv(job, s, a);
      case Release(_) => WorkerStepKeepsInv(job, s, a);
      case _ =>
    }
  }

  lemma {:induction false} RunsKeepInv(job: Job, acts: seq<Action>)
    requires Legal(job, acts)
    ensures Inv(job, Run(job, acts))
  {
    if acts == [] {
      CountIdle(|job.commands|);
    } else {
      RunsKeepInv(job, acts[..|acts| - 1]);
      StepKeepsInv(job, Run(job, acts[..|acts| - 1]), acts[|acts| - 1]);
    }
  }

  // ----- At most so many at once -----

  predicate IsRunning(w: Worker) {
    w.Executing?
  }

  lemma {:induction false} CountMonotone(ws: seq<Worker>, p: Worker -> bool, q: Worker -> bool)
    requires forall w :: p(w) ==> q(w)
    ensures Count(ws, p) <= Count(ws, q)
  {
    if ws == [] {
    } else {
      CountMonotone(ws[..|ws| - 1], p, q);
    }
  }

  /** In every interleaving at most ten executables run at once, and at most one in serial mode. */
  lemma BoundedConcurrency(job: Job, acts: seq<Action>)
    requires Legal(job, acts)
    ensures Count(Run(job, acts).workers, IsRunning) <= if job.serial then 1 else 10
  {
    RunsKeepInv(job, acts);
    CountMonotone(Run(job, acts).workers, IsRunning, HoldsSlot);
  }

  // ----- Each runs exactly once -----

  function Begins(id: nat): Action -> bool {
    (a: Action) => a == Begin(id)
  }

  function Writes(id: nat): Action -> bool {
    (a: Action) => a.Write? && a.id == id
  }

  predicate HasBegun(w: Worker) {
    w.Executing? || HasWritten(w)
  }

  lemma OneStepOf(job: Job, s: State, a: Action, id: nat)
    requires Inv(job, s) && Enabled(job, s, a) && id < |job.commands|
    ensures var (w, v) := (s.workers[id], Apply(job, s, a).workers[id]);
            && (if Begins(id)(a) then !HasBegun(w) && HasBegun(v) else HasBegun(w) == HasBegun(v))
            && (if Writes(id)(a) then !HasWritten(w) && HasWritten(v) else HasWritten(w) == HasWritten(v))
  {
    if a.Spawn? {
      assert s.workers[s.launcher.next].Idle?;
    } else if !(a.Begin? || a.Write? || a.CountDown? || a.Release?) {
      assert Apply(job, s, a).workers == s.workers;
    }
  }

  /** In every interleaving each executable has begun, and has written its output, at most once so far. */
  lemma {:induction false} RunsOnce(job: Job, acts: seq<Action>, id: nat)
    requires Legal(job, acts) && id < |job.commands|
    ensures |Run(job, acts).workers| == |job.commands|
    ensures |Filter(acts, Begins(id))| == if HasBegun(Run(job, acts).workers[id]) then 1 else 0
    ensures |Filter(acts, Writes(id))| == if HasWritten(Run(job, acts).workers[id]) then 1 else 0
  {
    RunsKeepInv(job, acts);
    if acts == [] {
    } else {
      var front := acts[..|acts| - 1];
      RunsOnce(job, front, id);
      RunsKeepInv(job, front);
      OneStepOf(job, Run(job, front), acts[|acts| - 1], id);
    }
  }

  // ----- Progress and termination -----

  predicate AllDone(job: Job, s: State) {
    && s.launcher.Returned? && s.collector.Reported?
    && forall i :: 0 <= i < |s.workers| ==> s.workers[i].Exited?
  }

  function WorkerStep(w: Worker, id: nat): Action
    requires !w.Idle? && !w.Exited?
  {
    match w
    case Launched => Begin(id)
    case Executing => Write(id, "")
    case Written => CountDown(id)
    case Counted => Release(id)
  }

  /** Until all is done some step is enabled, other than a cancellation from outside. */
  lemma Progress(job: Job, s: State) returns (a: Action)
    requires Inv(job, s) && !AllDone(job, s)
    ensures Enabled(job, s, a) && !a.CancelParent?
  {
    var n := |job.commands|;
    match s.launcher {
      case Sending(i) =>
        if i == n {
          a := LeaveLoop;
        } else if s.slots < Limit(job) {
          a := Acquire;
        } else {
          var id := CountsSomeone(s.workers, HoldsSlot);
          a := WorkerStep(s.workers[id], id);
        }
      case Spawning(_) => a := Spawn;
      case AwaitingQueue =>
        if s.pending == 0 {
          a := QueueEmpty;
        } else {
          var id := CountsSomeone(s.workers, NotCounted);
          a := WorkerStep(s.workers[id], id);
        }
      case Canceling => a := Cancel;
      case Returned =>
        match s.collector {
          case AwaitingDone => a := StartReport;
          case Reading(k, _) => a := if k < n then CollectOne else FinishReport;
          case Reported(_) =>
            var id :| 0 <= id < n && !s.workers[id].Exited?;
            a := WorkerStep(s.workers[id], id);
        }
    }
  }

  function WorkerRank(w: Worker): nat {
    match w
    case Idle => 4
    case Launched => 4
    case Executing => 3
    case Written => 2
    case Counted => 1
    case Exited => 0
  }

  function WorkersRank(ws: seq<Worker>): nat {
    if ws == [] then 0 else WorkersRank(ws[..|ws| - 1]) + WorkerRank(ws[|ws| - 1])
  }

  function LauncherRank(n: nat, launcher: Launcher): int {
    match launcher
    case Sending(i) => 2 * (n - i) + 3
    case Spawning(i) => 2 * (n - i) + 2
    case AwaitingQueue => 2
    case Canceling => 1
    case Returned => 0
  }

  function CollectorRank(n: nat, collector: Collector): int {
    match collector
    case AwaitingDone => n + 2
    case Reading(k, _) => n - k + 1
    case Reported(_) => 0
  }

  /** The number of steps left, counting a cancellation from outside. */
  function StepsLeft(job: Job, s: State): int {
    var n := |job.commands|;
    WorkersRank(s.workers) + LauncherRank(n, s.launcher) + CollectorRank(n, s.collector) +
    if s.parentCanceled then 0 else 1
  }

  lemma {:induction false} RankUpdate(ws: seq<Worker>, i: nat, w: Worker)
    requires i < |ws|
    ensures WorkersRank(ws[i := w]) == WorkersRank(ws) - WorkerRank(ws[i]) + WorkerRank(w)
  {
    var n := |ws| - 1;
    if i < n {
      RankUpdate(ws[..n], i, w);
      assert ws[i := w][..n] == ws[..n][i := w];
    } else {
      assert ws[i := w][..n] == ws[..n];
    }
  }

  /** Every step, of whichever process, brings the end one step nearer. */
  lemma StepsDecrease(job: Job, s: State, a: Action)
    requires Inv(job, s) && Enabled(job, s, a)
    ensures StepsLeft(job, Apply(job, s, a)) == StepsLeft(job, s) - 1
  {
    if a.Begin? || a.Write? || a.CountDown? || a.Release? {
      WorkerStepDecreases(job, s, a);
    } else if a.Spawn? {
      assert s.workers[s.launcher.next].Idle?;
      RankUpdate(s.workers, s.launcher.next, Launched);
    }
  }

  lemma WorkerStepDecreases(job: Job, s: State, a: Action)
    requires Inv(job, s) && Enabled(job, s, a)
    requires a.Begin? || a.Write? || a.CountDown? || a.Release?
    ensures StepsLeft(job, Apply(job, s, a)) == StepsLeft(job, s) - 1
  {
    RankUpdate(s.workers, a.id, StepTo(a));
  }

  lemma {:induction false} IdleRank(n: nat)
    ensures WorkersRank(seq(n, _ => Idle)) == 4 * n
  {
    if n == 0 {
    } else {
      IdleRank(n - 1);
      assert seq(n, _ => Idle)[..n - 1] == seq(n - 1, _ => Idle);
    }
  }

  /** No run is longer than 7n + 6 steps, and one that cannot go on has done everything. */
  lemma {:induction false} RunsEnd(job: Job, acts: seq<Action>)
    requires Legal(job, acts)
    ensures |acts| + StepsLeft(job, Run(job, acts)) == 7 * |job.commands| + 6
    ensures StepsLeft(job, Run(job, acts)) >= 0
    ensures (forall a :: Enabled(job, Run(job, acts), a) ==> a.CancelParent?) ==> AllDone(job, Run(job, acts))
  {
    RunsKeepInv(job, acts);
    if acts == [] {
      IdleRank(|job.commands|);
    } else {
      var front := acts[..|acts| - 1];
      RunsEnd(job, front);
      RunsKeepInv(job, front);
      StepsDecrease(job, Run(job, front), acts[|acts| - 1]);
    }
    if !AllDone(job, Run(job, acts)) {
      var a := Progress(job, Run(job, acts));
    }
  }

  // ----- Serial mode -----

  predicate IsExec(a: Action) {
    a.Begin? || a.Write?
  }

  /** Begin 0, Write 0, Begin 1, Write 1, and so on: in list order, without overlap. */
  ghost predicate InListOrder(execs: seq<Action>) {
    forall k :: 0 <= k < |execs| ==>
      if k % 2 == 0 then execs[k] == Begin(k / 2) else execs[k].Write? && execs[k].id == k / 2
  }

  function ExecsOf(w: Worker): nat {
    if HasWritten(w) then 2 else if w.Executing? then 1 else 0
  }

  ghost predicate SerialInv(job: Job, s: State, execs: seq<Action>) {
    var launched := LaunchedSoFar(job, s);
    && InListOrder(execs)
    && launched <= |s.workers|
    && (forall j :: 0 <= j < launched - 1 ==> s.workers[j].Exited?)
    && (s.launcher.Spawning? && launched > 0 ==> s.workers[launched - 1].Exited?)
    && |execs| == if launched == 0 then 0 else 2 * (launched - 1) + ExecsOf(s.workers[launched - 1])
  }

  lemma OneMoreInOrder(execs: seq<Action>, a: Action, id: nat)
    requires InListOrder(execs)
    requires (|execs| == 2 * id && a == Begin(id)) || (|execs| == 2 * id + 1 && a.Write? && a.id == id)
    ensures InListOrder(execs + [a])
  {
    assert (2 * id) % 2 == 0 && (2 * id) / 2 == id && (2 * id + 1) % 2 == 1 && (2 * id + 1) / 2 == id;
  }

  lemma SerialWorkerStep(job: Job, s: State, a: Action, execs: seq<Action>)
    requires Inv(job, s) && Enabled(job, s, a) && SerialInv(job, s, execs)
    requires a.Begin? || a.Write? || a.CountDown? || a.Release?
    ensures SerialInv(job, Apply(job, s, a), if IsExec(a) then execs + [a] else execs)
  {
    assert a.id == LaunchedSoFar(job, s) - 1;
    if IsExec(a) {
      OneMoreInOrder(execs, a, a.id);
    }
  }

  lemma SerialStep(job: Job, s: State, a: Action, execs: seq<Action>)
    requires job.serial && Inv(job, s) && Enabled(job, s, a) && SerialInv(job, s, execs)
    ensures SerialInv(job, Apply(job, s, a), if IsExec(a) then execs + [a] else execs)
  {
    if a.Begin? || a.Write? || a.CountDown? || a.Release? {
      SerialWorkerStep(job, s, a, execs);
    } else if a.Acquire? {
      var last := LaunchedSoFar(job, s) - 1;
      if last >= 0 && HoldsSlot(s.workers[last]) {
        CountIsPositive(s.workers, last, HoldsSlot);
      }
    }
  }

  /** In serial mode the executables run in the order of the list, each one ending before the next begins. */
  lemma {:induction false} SerialRunsInOrder(job: Job, acts: seq<Action>)
    requires Legal(job, acts) && job.serial
    ensures Inv(job, Run(job, acts)) && SerialInv(job, Run(job, acts), Filter(acts, IsExec))
  {
    RunsKeepInv(job, acts);
    if acts == [] {
    } else {
      var front := acts[..|acts| - 1];
      SerialRunsInOrder(job, front);
      SerialStep(job, Run(job, front), acts[|acts| - 1], Filter(front, IsExec));
    }
  }

  // ----- The report -----

  function Texts(s: State): seq<string> {
    seq(|s.outputs|, i requires 0 <= i => Read(s, i))
  }

  /** The report starts before the launcher has canceled its context, which is the last that it does;
      only a parent context that is canceled allows that. */
  predicate StartsEarly(s: State, a: Action) {
    a.StartReport? && !s.canceled
  }

  predicate StartedEarly(job: Job, acts: seq<Action>) {
    acts != [] &&
    var front := acts[..|acts| - 1];
    StartedEarly(job, front) || StartsEarly(Run(job, front), acts[|acts| - 1])
  }

  /** Once the report has started, all outputs are written, and it has the entries of the executables in list order. */
  ghost predicate ReportInv(job: Job, s: State) {
    && |s.outputs| == |job.commands|
    && (!s.collector.AwaitingDone? ==> forall i :: 0 <= i < |s.outputs| ==> s.outputs[i].Some?)
    && (s.collector.Reading? && s.collector.next <= |job.commands| ==>
          s.collector.report == Concat(Entries(job.commands[..s.collector.next], Texts(s)[..s.collector.next])))
    && (s.collector.Reported? ==> s.collector.report == Concat(Entries(job.commands, Texts(s))))
  }

  lemma AllWritten(job: Job, s: State)
    requires Inv(job, s) && s.canceled
    ensures forall i :: 0 <= i < |s.outputs| ==> s.outputs[i].Some?
  {
    forall i | 0 <= i < |s.outputs| ensures s.outputs[i].Some? {
      if NotCounted(s.workers[i]) {
        CountIsPositive(s.workers, i, NotCounted);
      }
    }
  }

  lemma CollectorStep(job: Job, s: State, a: Action)
    requires Inv(job, s) && Enabled(job, s, a) && ReportInv(job, s) && !StartsEarly(s, a)
    requires a.StartReport? || a.CollectOne? || a.FinishReport?
    ensures ReportInv(job, Apply(job, s, a))
  {
    assert Texts(Apply(job, s, a)) == Texts(s);
    match a {
      case StartReport => AllWritten(job, s);
      case CollectOne => CollectStep(job, s);
      case FinishReport =>
        var k := s.collector.next;
        assert job.commands[..k] == job.commands && Texts(s)[..k] == Texts(s);
    }
  }

  lemma CollectStep(job: Job, s: State)
    requires |s.outputs| == |job.commands| && Enabled(job, s, CollectOne)
    requires s.collector.report == Concat(Entries(job.commands[..s.collector.next], Texts(s)[..s.collector.next]))
    ensures var t := Apply(job, s, CollectOne).collector;
            t.Reading? && t.report == Concat(Entries(job.commands[..t.next], Texts(s)[..t.next]))
  {
    OneMoreEntry(job.commands, Texts(s), s.collector.next);
  }

  /** No output is written once the report has started. */
  lemma OtherStep(job: Job, s: State, a: Action)
    requires Inv(job, s) && Enabled(job, s, a) && ReportInv(job, s)
    requires !a.StartReport? && !a.CollectOne? && !a.FinishReport?
    ensures ReportInv(job, Apply(job, s, a))
  {
    assert Apply(job, s, a).collector == s.collector;
    if a.Write? {
      assert s.collector.AwaitingDone? by {
        assert s.outputs[a.id].None?;
      }
    } else {
      assert Apply(job, s, a).outputs == s.outputs;
      assert Texts(Apply(job, s, a)) == Texts(s);
    }
  }

  lemma ReportStep(job: Job, s: State, a: Action)
    requires Inv(job, s) && Enabled(job, s, a) && ReportInv(job, s) && !StartsEarly(s, a)
    ensures ReportInv(job, Apply(job, s, a))
  {
    if a.StartReport? || a.CollectOne? || a.FinishReport? {
      CollectorStep(job, s, a);
    } else {
      OtherStep(job, s, a);
    }
  }

  /** In every run whose report does not start before the launcher is done, the report starts after every output
      is written, and when it is finished it is the entries of all executables in the order of the list,
      whenever the parent context is canceled otherwise. */
  lemma {:induction false} ReportIsComplete(job: Job, acts: seq<Action>)
    requires Legal(job, acts) && !StartedEarly(job, acts)
    ensures ReportInv(job, Run(job, acts))
  {
    if acts == [] {
    } else {
      var front := acts[..|acts| - 1];
      ReportIsComplete(job, front);
      RunsKeepInv(job, front);
      ReportStep(job, Run(job, front), acts[|acts| - 1]);
    }
  }

  lemma OutputStep(job: Job, s: State, a: Action, id: nat, output: string)
    requires Inv(job, s) && Enabled(job, s, a) && id < |job.commands|
    ensures Apply(job, s, a).outputs[id] == Some(output) <==> s.outputs[id] == Some(output) || a == Write(id, output)
  {
    if a.Write? && a.id == id {
      assert s.outputs[id].None?;
    }
  }

  /** What the report reads for an executable is what its one execution wrote. */
  lemma {:induction false} OutputsAreWritten(job: Job, acts: seq<Action>, id: nat, output: string)
    requires Legal(job, acts) && id < |job.commands|
    ensures |Run(job, acts).outputs| == |job.commands|
    ensures Run(job, acts).outputs[id] == Some(output) <==> Write(id, output) in acts
  {
    RunsKeepInv(job, acts);
    if acts == [] {
    } else {
      var (front, a) := (acts[..|acts| - 1], acts[|acts| - 1]);
      assert acts == front + [a];
      OutputsAreWritten(job, front, id, output);
      RunsKeepInv(job, front);
      OutputStep(job, Run(job, front), a, id, output);
    }
  }

  // ----- What the report read -----

  /** The outputs as they were when the report read them, in the order of the reading. */
  function Collected(job: Job, acts: seq<Action>): seq<Option<string>> {
    if acts == [] then []
    else
      var (front, a) := (acts[..|acts| - 1], acts[|acts| - 1]);
      if a.CollectOne? then Collected(job, front) + [OutputAt(Run(job, front), |Collected(job, front)|)]
      else Collected(job, front)
  }

  function OutputAt(s: State, i: nat): Option<string> {
    if i < |s.outputs| then s.outputs[i] else None
  }

  function TextOf(output: Option<string>): string {
    match output
    case Some(text) => text
    case None => ""
  }

  function TextsOf(outputs: seq<Option<string>>): (texts: seq<string>)
    ensures |texts| == |outputs|
  {
    seq(|outputs|, i requires 0 <= i < |outputs| => TextOf(outputs[i]))
  }

  ghost predicate CollectInv(job: Job, s: State, collected: seq<Option<string>>) {
    && |collected| <= |job.commands|
    && match s.collector
       case AwaitingDone => collected == []
       case Reading(k, report) =>
         k == |collected| && report == Concat(Entries(job.commands[..k], TextsOf(collected)))
       case Reported(report) =>
         |collected| == |job.commands| && report == Concat(Entries(job.commands, TextsOf(collected)))
  }

  lemma CollectOneStep(job: Job, s: State, collected: seq<Option<string>>)
    requires Enabled(job, s, CollectOne) && CollectInv(job, s, collected)
    ensures CollectInv(job, Apply(job, s, CollectOne), collected + [OutputAt(s, |collected|)])
  {
    var k, more := |collected|, collected + [OutputAt(s, |collected|)];
    assert TextsOf(more)[..k] == TextsOf(collected) && TextsOf(more)[..k + 1] == TextsOf(more);
    assert job.commands[..k + 1][..k] == job.commands[..k];
    OneMoreEntry(job.commands[..k + 1], TextsOf(more), k);
    assert job.commands[..k + 1][..k + 1] == job.commands[..k + 1];
  }

  lemma CollectInvStep(job: Job, s: State, a: Action, collected: seq<Option<string>>)
    requires Enabled(job, s, a) && CollectInv(job, s, collected)
    ensures CollectInv(job, Apply(job, s, a),
                       if a.CollectOne? then collected + [OutputAt(s, |collected|)] else collected)
  {
    match a
    case CollectOne => CollectOneStep(job, s, collected);
    case StartReport => assert Concat(Entries(job.commands[..0], TextsOf([]))) == "";
    case FinishReport => assert job.commands[..|job.commands|] == job.commands;
    case _ => assert Apply(job, s, a).collector == s.collector;
  }

  /** In every run, early or not, the report is the entries of the commands with the outputs that it read. */
  lemma {:induction false} ReportIsWhatItRead(job: Job, acts: seq<Action>)
    requires Legal(job, acts)
    ensures CollectInv(job, Run(job, acts), Collected(job, acts))
  {
    if acts == [] {
    } else {
      var front := acts[..|acts| - 1];
      ReportIsWhatItRead(job, front);
      CollectInvStep(job, Run(job, front), acts[|acts| - 1], Collected(job, front));
    }
  }

  /** The k-th action is the one by which the report reads the i-th output. */
  ghost predicate Reads(job: Job, acts: seq<Action>, k: int, i: nat) {
    0 <= k < |acts| && acts[k].CollectOne? && |Collected(job, acts[..k])| == i
  }

  /** The i-th output is written before the report reads it. */
  ghost predicate WrittenBeforeRead(job: Job, acts: seq<Action>, i: nat, output: string) {
    exists k :: Reads(job, acts, k, i) && Write(i, output) in acts[..k]
  }

  lemma WrittenInFront(job: Job, acts: seq<Action>, i: nat, output: string)
    requires acts != []
    ensures var (front, last) := (acts[..|acts| - 1], |acts| - 1);
            WrittenBeforeRead(job, acts, i, output) <==>
            || WrittenBeforeRead(job, front, i, output)
            || (Reads(job, acts, last, i) && Write(i, output) in front)
  {
    var front := acts[..|acts| - 1];
    forall k | 0 <= k < |front|
      ensures front[..k] == acts[..k] && (Reads(job, front, k, i) <==> Reads(job, acts, k, i))
    {
      assert front[..k] == acts[..k];
    }
    if k :| Reads(job, acts, k, i) && Write(i, output) in acts[..k] {
      assert k < |front| ==> Reads(job, front, k, i) && Write(i, output) in front[..k];
    }
    if k :| Reads(job, front, k, i) && Write(i, output) in front[..k] {
      assert Reads(job, acts, k, i) && Write(i, output) in acts[..k];
    }
  }

  lemma {:induction false} ReadsAreBelow(job: Job, acts: seq<Action>, i: nat, output: string)
    requires i >= |Collected(job, acts)|
    ensures !WrittenBeforeRead(job, acts, i, output)
  {
    if acts == [] {
    } else {
      ReadsAreBelow(job, acts[..|acts| - 1], i, output);
      WrittenInFront(job, acts, i, output);
    }
  }

  /** What was read for a command is its output iff the output was written before it was read. */
  lemma {:induction false} ReadIsWritten(job: Job, acts: seq<Action>, i: nat, output: string)
    requires Legal(job, acts) && i < |Collected(job, acts)|
    ensures i < |job.commands|
    ensures Collected(job, acts)[i] == Some(output) <==> WrittenBeforeRead(job, acts, i, output)
  {
    ReportIsWhatItRead(job, acts);
    if acts == [] {
    } else {
      var (front, a) := (acts[..|acts| - 1], acts[|acts| - 1]);
      WrittenInFront(job, acts, i, output);
      if i < |Collected(job, front)| {
        ReadIsWritten(job, front, i, output);
      } else {
        OutputsAreWritten(job, front, i, output);
        ReadsAreBelow(job, front, i, output);
      }
    }
  }

  /** A finished report has every output if and only if each one was written before it was read. */
  lemma ReportIsCompleteIff(job: Job, acts: seq<Action>)
    requires Legal(job, acts) && Run(job, acts).collector.Reported?
    ensures |Collected(job, acts)| == |job.commands|
    ensures Run(job, acts).collector.report == Concat(Entries(job.commands, TextsOf(Collected(job, acts))))
    ensures forall i: nat :: i < |job.commands| ==>
              (Collected(job, acts)[i].Some? <==> exists output :: WrittenBeforeRead(job, acts, i, output))
  {
    ReportIsWhatItRead(job, acts);
    forall i: nat | i < |job.commands|
      ensures Collected(job, acts)[i].Some? <==> exists output :: WrittenBeforeRead(job, acts, i, output)
    {
      forall output ensures Collected(job, acts)[i] == Some(output) <==> WrittenBeforeRead(job, acts, i, output) {
        ReadIsWritten(job, acts, i, output);
      }
      if Collected(job, acts)[i].Some? {
        assert WrittenBeforeRead(job, acts, i, Collected(job, acts)[i].value);
      }
    }
  }

  /** A report starts early only if the parent context was canceled before. */
  lemma {:induction false} EarlyNeedsCancellation(job: Job, acts: seq<Action>)
    requires Legal(job, acts) && StartedEarly(job, acts)
    ensures Run(job, acts).parentCanceled && CancelParent in acts
  {
    var front := acts[..|acts| - 1];
    assert acts == front + [acts[|acts| - 1]];
    if StartedEarly(job, front) {
      EarlyNeedsCancellation(job, front);
    } else {
      CanceledIsTaken(job, front);
    }
  }

  lemma {:induction false} CanceledIsTaken(job: Job, acts: seq<Action>)
    requires Legal(job, acts)
    ensures Run(job, acts).parentCanceled <==> CancelParent in acts
  {
    if acts == [] {
    } else {
      var (front, a) := (acts[..|acts| - 1], acts[|acts| - 1]);
      CanceledIsTaken(job, front);
      CancelStep(job, Run(job, front), a);
      assert CancelParent in acts <==> CancelParent in front || a == CancelParent by {
        assert acts == front + [a];
      }
    }
  }

  lemma CancelStep(job: Job, s: State, a: Action)
    requires Enabled(job, s, a)
    ensures Apply(job, s, a).parentCanceled <==> s.parentCanceled || a == CancelParent
  {}

  lemma RunOneMore(job: Job, acts: seq<Action>, a: Action)
    requires Legal(job, acts) && Enabled(job, Run(job, acts), a)
    ensures Legal(job, acts + [a]) && Run(job, acts + [a]) == Apply(job, Run(job, acts), a)
    ensures StartedEarly(job, acts + [a]) <==> StartedEarly(job, acts) || StartsEarly(Run(job, acts), a)
  {
    assert (acts + [a])[..|acts|] == acts;
  }

  lemma CanceledAtOnce(job: Job)
    ensures var acts := [CancelParent]; var s := Run(job, acts);
            && Legal(job, acts) && s.parentCanceled && !s.canceled && s.collector == AwaitingDone
            && s.outputs == Init(job).outputs
  {
    RunOneMore(job, [], CancelParent);
    assert [] + [CancelParent] == [CancelParent];
  }

  lemma StartedAtOnce(job: Job)
    ensures var acts := [CancelParent, StartReport]; var s := Run(job, acts);
            && Legal(job, acts) && StartedEarly(job, acts) && s.collector == Reading(0, "")
            && s.outputs == Init(job).outputs
  {
    CanceledAtOnce(job);
    RunOneMore(job, [CancelParent], StartReport);
    assert [CancelParent] + [StartReport] == [CancelParent, StartReport];
  }

  /** A canceled parent lets the report start before anything has run. */
  lemma CanceledParentReportsEarly(job: Job)
    requires job.commands != []
    ensures var acts := [CancelParent, StartReport, CollectOne];
            && Legal(job, acts) && StartedEarly(job, acts)
            && Run(job, acts).collector == Reading(1, Entry(job.commands[0], ""))
  {
    StartedAtOnce(job);
    RunOneMore(job, [CancelParent, StartReport], CollectOne);
    assert [CancelParent, StartReport] + [CollectOne] == [CancelParent, StartReport, CollectOne];
    AddEntryAppends("", job.commands[0], "");
  }
}
