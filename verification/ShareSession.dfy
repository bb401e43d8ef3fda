// The share session of engine/protocol/src/send.rs as a step system. Request
// tasks run concurrently over two shared counters, a map of transfer states
// and two once-only flags; every lock region and every atomic operation is one
// step, so a run is any sequence of actions.

module ShareSession {
  import opened ByteAccounting
  import opened Numbers
  import opened Wrappers

  type Key = (nat, nat)

  const USIZE: nat := 0x1_0000_0000_0000_0000

  // What a request task does next.
  datatype Pc =
    | Idle                                   // waiting for an update
    | Insert(u: Update)                      // first update: insert a transfer state
    | Announce(u: Update)                    // swap the "started" flag
    | Modify(u: Update)                      // update the transfer state
    | Account                                // Completed: settle the bytes sent
    | Remove(bytes: u64)                     // Completed: remove the transfer state
    | Decrement(tail: bool)
    | Increment(tail: bool)
    | LoadActive(tail: bool, count: nat)
    | Sleep(tail: bool, before: nat)
    | LoadAgain(tail: bool, before: nat, count: nat)
    | LookAtStates(tail: bool, quiet: bool)
    | LookAtClock(tail: bool, quiet: bool)
    | SwapCompleted(tail: bool)
    | AbortRemove
    | AbortIncrement
    | AbortLoad(count: nat)
    | ReadTail                               // channel ended without Completed
    | Done

  // started, ended: the task's own transfer_started and request_completed.
  // The last three fields are history: the counter update that resolved the
  // request, the byte count it was judged by, the updates applied to its state.
  datatype Task = Task(
    key: Key,
    probe: bool,
    started: bool,
    ended: bool,
    pc: Pc,
    resolved: bool,
    judged: Option<u64>,
    seen: seq<Update>)

  datatype Event =
    | ActiveConnections(count: nat)
    | TransferStarted
    | ProgressShown(task: nat, bytes: u64)
    | TransferCompleted(source: Option<nat>)     // None: the session itself, at the end
    | TransferFailed(task: nat)

  datatype Main = Looping | Draining | Loaded(count: nat) | Finished

  datatype Session = Session(
    total: u64,
    entryType: string,
    active: nat,
    completed: nat,
    states: map<Key, TransferState>,
    startedFlag: bool,
    completedFlag: bool,
    tasks: seq<Task>,
    events: seq<Event>,
    main: Main)

  datatype Action =
    | Receive(key: Key, probe: bool)         // GetRequestReceivedNotify
    | Deliver(task: nat, u: Update)          // an update reaches a task
    | Hangup(task: nat)                      // a task's channel ends
    | Advance(task: nat, recent: bool)       // a task's next step; the clock's answer
    | Close                                  // the provider channel ends
    | Conclude                               // the session's next step after that

  function Init(total: u64, entryType: string): Session {
    Session(total, entryType, 0, 0, map[], false, false, [], [], Looping)
  }

  // ---------------------------------------------------------------------- steps

  function FetchSub(n: nat): nat {
    if n == 0 then USIZE - 1 else n - 1
  }

  function Then(tail: bool): Pc {
    if tail then Done else Idle
  }

  // The verdict of the 95% test picks the counter that resolves the request.
  function Verdict(s: Session, bytes: u64, tail: bool): Pc {
    if PayloadComplete(bytes, s.total) then Increment(tail) else Decrement(tail)
  }

  // The steps that resolve a request.
  predicate Resolves(pc: Pc) {
    pc.Decrement? || pc.Increment? || pc.AbortIncrement?
  }

  function OnDeliver(t: Task, u: Update): Task {
    if t.probe then t else
    match u
    case Started(_, _) => t.(pc := if t.started then Modify(u) else Insert(u))
    case Progress(_) => t.(pc := if t.started then Modify(u) else Insert(u))
    case Completed => if t.started && !t.ended then t.(pc := Account) else t
    case Aborted => if t.started && !t.ended then t.(pc := AbortRemove) else t
  }

  function OnHangup(t: Task): Task {
    t.(pc := if !t.probe && t.started && !t.ended then ReadTail else Done)
  }

  // The bytes the tail branch judges by: settled blobs only.
  function TailBytes(s: Session, key: Key): u64 {
    if key in s.states then s.states[key].accounted else 0
  }

  function SettledBytes(s: Session, key: Key): u64 {
    if key in s.states then Settle(s.states[key]).accounted else 0
  }

  function NextPc(s: Session, t: Task, recent: bool): Pc {
    match t.pc
    case Idle => Idle
    case Insert(u) => Announce(u)
    case Announce(u) => Modify(u)
    case Modify(u) => Idle
    case Account => Remove(SettledBytes(s, t.key))
    case Remove(bytes) => Verdict(s, bytes, false)
    case Decrement(tail) => Then(tail)
    case Increment(tail) => LoadActive(tail, s.completed + 1)
    case LoadActive(tail, count) => if count >= s.active && count >= 1 then Sleep(tail, s.active) else Then(tail)
    case Sleep(tail, before) => LoadAgain(tail, before, s.completed)
    case LoadAgain(tail, before, count) =>
      LookAtStates(tail, count >= s.active && count >= 1 && !(s.active > before))
    case LookAtStates(tail, quiet) => LookAtClock(tail, quiet && |s.states| == 0)
    case LookAtClock(tail, quiet) => if quiet && !recent then SwapCompleted(tail) else Then(tail)
    case SwapCompleted(tail) => Then(tail)
    case AbortRemove => AbortIncrement
    case AbortIncrement => AbortLoad(s.completed + 1)
    case AbortLoad(_) => Idle
    case ReadTail => Verdict(s, TailBytes(s, t.key), true)
    case Done => Done
  }

  // The task after one step of its own.
  function NextTask(s: Session, t: Task, recent: bool): Task {
    t.(pc := NextPc(s, t, recent),
       started := t.started || t.pc.Announce?,
       ended := t.ended || t.pc.Remove? || t.pc.AbortRemove?,
       resolved := t.resolved || Resolves(t.pc),
       judged := if t.pc.Remove? then Some(t.pc.bytes)
                 else if t.pc.ReadTail? then Some(TailBytes(s, t.key)) else t.judged,
       seen := if t.pc.Modify? && !t.ended then t.seen + [t.pc.u] else t.seen)
  }

  function NextStates(s: Session, t: Task): map<Key, TransferState> {
    match t.pc
    case Insert(u) => s.states[t.key := Fresh(s.total, u)]
    case Modify(u) =>
      if t.key in s.states then s.states[t.key := Apply(s.entryType, s.states[t.key], u)] else s.states
    case Account => if t.key in s.states then s.states[t.key := Settle(s.states[t.key])] else s.states
    case Remove(_) => s.states - {t.key}
    case AbortRemove => s.states - {t.key}
    case _ => s.states
  }

  function NextEvents(s: Session, i: nat, t: Task): seq<Event> {
    match t.pc
    case Insert(u) => [ActiveConnections(|NextStates(s, t)|)]
    case Announce(_) => if s.startedFlag then [] else [TransferStarted]
    case Modify(u) =>
      if u.Progress? && t.key in s.states
      then [ProgressShown(i, Min(Transferred(NextStates(s, t)[t.key]), s.states[t.key].total))] else []
    case Remove(_) => [ActiveConnections(|NextStates(s, t)|)]
    case SwapCompleted(_) => if s.completedFlag then [] else [TransferCompleted(Some(i))]
    case AbortRemove => [ActiveConnections(|NextStates(s, t)|)]
    case AbortLoad(count) => if count >= s.active then [TransferFailed(i)] else []
    case _ => []
  }

  function AdvanceTask(s: Session, i: nat, recent: bool): Session
    requires i < |s.tasks|
  {
    var t := s.tasks[i];
    s.(tasks := s.tasks[i := NextTask(s, t, recent)],
       states := NextStates(s, t),
       events := s.events + NextEvents(s, i, t),
       active := if t.pc.Decrement? then FetchSub(s.active) else s.active,
       completed := if t.pc.Increment? || t.pc.AbortIncrement? then s.completed + 1 else s.completed,
       startedFlag := s.startedFlag || t.pc.Announce?,
       completedFlag := s.completedFlag || t.pc.SwapCompleted?)
  }

  predicate AllDone(s: Session) {
    forall i :: 0 <= i < |s.tasks| ==> s.tasks[i].pc.Done?
  }

  function NewTask(key: Key, probe: bool): Task {
    Task(key, probe, false, false, Idle, false, None, [])
  }

  // An action that is not enabled leaves the session as it is.
  function Step(s: Session, a: Action): Session {
    match a
    case Receive(key, probe) =>
      if !s.main.Looping? then s
      else s.(tasks := s.tasks + [NewTask(key, probe)], active := if probe then s.active else s.active + 1)
    case Deliver(i, u) =>
      if i < |s.tasks| && s.tasks[i].pc.Idle? then s.(tasks := s.tasks[i := OnDeliver(s.tasks[i], u)]) else s
    case Hangup(i) =>
      if i < |s.tasks| && s.tasks[i].pc.Idle? then s.(tasks := s.tasks[i := OnHangup(s.tasks[i])]) else s
    case Advance(i, recent) =>
      if i < |s.tasks| then AdvanceTask(s, i, recent) else s
    case Close =>
      if s.main.Looping? then s.(main := Draining) else s
    case Conclude =>
      if s.main.Draining? && AllDone(s) then s.(main := Loaded(s.completed))
      else if s.main.Loaded? then
        if s.main.count >= s.active && s.main.count >= 1 then
          s.(main := Finished, completedFlag := true,
             events := s.events + if s.completedFlag then [] else [TransferCompleted(None)])
        else s.(main := Finished)
      else s
  }

  function Run(s: Session, acts: seq<Action>): Session {
    if acts == [] then s else Step(Run(s, acts[..|acts| - 1]), acts[|acts| - 1])
  }

  // One task across one step of the session.
  function TaskAfter(s: Session, a: Action, i: nat): Task
    requires i < |s.tasks|
  {
    var t := s.tasks[i];
    match a
    case Deliver(j, u) => if j == i && t.pc.Idle? then OnDeliver(t, u) else t
    case Hangup(j) => if j == i && t.pc.Idle? then OnHangup(t) else t
    case Advance(j, recent) => if j == i then NextTask(s, t, recent) else t
    case _ => t
  }

  lemma StepTask(s: Session, a: Action, i: nat)
    requires i < |Step(s, a).tasks|
    ensures i < |s.tasks| ==> Step(s, a).tasks[i] == TaskAfter(s, a, i)
    ensures i >= |s.tasks| ==> a.Receive? && Step(s, a).tasks[i] == NewTask(a.key, a.probe)
  {
    hide NextTask, NextStates, NextEvents, OnDeliver, OnHangup;
  }

  // ------------------------------------------------------ counter conservation

  predicate Open(t: Task) {
    !t.probe && !t.resolved
  }

  // How many received payload requests have not been resolved.
  function Unresolved(tasks: seq<Task>): nat {
    if tasks == [] then 0
    else Unresolved(tasks[..|tasks| - 1]) + if Open(tasks[|tasks| - 1]) then 1 else 0
  }

  lemma {:induction false} UnresolvedUpdate(tasks: seq<Task>, i: nat, t: Task)
    requires i < |tasks|
    ensures Unresolved(tasks[i := t])
         == Unresolved(tasks) - (if Open(tasks[i]) then 1 else 0) + (if Open(t) then 1 else 0)
  {
    var n := |tasks| - 1;
    if i < n {
      assert tasks[i := t][..n] == tasks[..n][i := t];
      UnresolvedUpdate(tasks[..n], i, t);
    } else {
      assert tasks[i := t][..n] == tasks[..n];
    }
  }

  lemma {:induction false} OpenTaskCounts(tasks: seq<Task>, i: nat)
    requires i < |tasks| && Open(tasks[i])
    ensures Unresolved(tasks) >= 1
  {
    var n := |tasks| - 1;
    if i < n {
      OpenTaskCounts(tasks[..n], i);
    }
  }

  lemma {:induction false} OpenTaskExists(tasks: seq<Task>) returns (i: nat)
    requires Unresolved(tasks) >= 1
    ensures i < |tasks| && Open(tasks[i])
  {
    var n := |tasks| - 1;
    if Open(tasks[n]) {
      i := n;
    } else {
      i := OpenTaskExists(tasks[..n]);
    }
  }

  // What a task's position says about its own variables and about the counters
  // it has read.
  predicate TaskOk(completed: nat, startedFlag: bool, total: u64, t: Task) {
    && (t.started ==> startedFlag)
    && (t.resolved ==> t.started)
    && (t.probe ==> !t.started && !t.ended && (t.pc.Idle? || t.pc.Done?))
    && (t.ended ==> t.started)
    && match t.pc
       case Idle => t.resolved == t.ended
       case Insert(_) => !t.started && !t.resolved
       case Announce(_) => !t.started && !t.resolved
       case Modify(_) => t.started && t.resolved == t.ended
       case Account => t.started && !t.resolved && !t.ended
       case Remove(_) => t.started && !t.resolved && !t.ended
       case Decrement(tail) => t.started && !t.resolved && t.ended == !tail
       case Increment(tail) => t.started && !t.resolved && t.ended == !tail && Passed(total, t)
       case LoadActive(tail, count) => t.resolved && t.ended == !tail && 1 <= count <= completed && Passed(total, t)
       case Sleep(tail, _) => t.resolved && t.ended == !tail && Passed(total, t)
       case LoadAgain(tail, _, count) => t.resolved && t.ended == !tail && count <= completed && Passed(total, t)
       case LookAtStates(tail, _) => t.resolved && t.ended == !tail && Passed(total, t)
       case LookAtClock(tail, _) => t.resolved && t.ended == !tail && Passed(total, t)
       case SwapCompleted(tail) => t.resolved && t.ended == !tail && Passed(total, t)
       case AbortRemove => t.started && !t.resolved && !t.ended
       case AbortIncrement => t.started && !t.resolved && t.ended
       case AbortLoad(count) => t.resolved && t.ended && 1 <= count <= completed
       case ReadTail => t.started && !t.resolved && !t.ended
       case Done => !t.probe && t.started ==> t.resolved
  }

  predicate Passed(total: u64, t: Task) {
    t.judged.Some? && PayloadComplete(t.judged.value, total)
  }

  predicate TasksOk(s: Session) {
    forall i :: 0 <= i < |s.tasks| ==> TaskOk(s.completed, s.startedFlag, s.total, s.tasks[i])
  }

  // active - completed is the number of unresolved requests.
  predicate Conserved(s: Session) {
    && s.active == s.completed + Unresolved(s.tasks)
    && (s.completed >= 1 ==> s.startedFlag)
    && (s.main.Loaded? ==> s.main.count == s.completed)
    && (!s.main.Looping? && !s.main.Draining? ==> AllDone(s))
  }

  lemma NextTaskOk(s: Session, t: Task, recent: bool)
    requires TaskOk(s.completed, s.startedFlag, s.total, t)
    ensures
      var completed := if t.pc.Increment? || t.pc.AbortIncrement? then s.completed + 1 else s.completed;
      TaskOk(completed, s.startedFlag || t.pc.Announce?, s.total, NextTask(s, t, recent))
  {
    hide PayloadComplete, SettledBytes, TailBytes;
  }

  lemma TaskOkMonotone(c: nat, f: bool, c': nat, f': bool, total: u64, t: Task)
    requires TaskOk(c, f, total, t) && c <= c' && (f ==> f')
    ensures TaskOk(c', f', total, t)
  {
  }

  lemma AdvanceTasksOk(s: Session, i: nat, recent: bool)
    requires TasksOk(s) && i < |s.tasks|
    ensures TasksOk(AdvanceTask(s, i, recent))
  {
    hide TaskOk, NextTask, NextStates, NextEvents;
    var s' := AdvanceTask(s, i, recent);
    NextTaskOk(s, s.tasks[i], recent);
    forall j | 0 <= j < |s'.tasks|
      ensures TaskOk(s'.completed, s'.startedFlag, s'.total, s'.tasks[j])
    {
      if j != i {
        TaskOkMonotone(s.completed, s.startedFlag, s'.completed, s'.startedFlag, s.total, s.tasks[j]);
      }
    }
  }

  lemma StepTasksOk(s: Session, a: Action)
    requires TasksOk(s)
    ensures TasksOk(Step(s, a))
  {
    hide AdvanceTask;
    if a.Advance? && a.task < |s.tasks| {
      AdvanceTasksOk(s, a.task, a.recent);
    }
  }

  // A request is resolved by exactly one step, and only once.
  lemma ResolvedOnce(s: Session, t: Task, recent: bool)
    requires TaskOk(s.completed, s.startedFlag, s.total, t)
    ensures Resolves(t.pc) ==> Open(t)
    ensures Open(NextTask(s, t, recent)) <==> Open(t) && !Resolves(t.pc)
    ensures t.pc.Increment? || t.pc.AbortIncrement? ==> s.startedFlag
  {
    hide PayloadComplete, SettledBytes, TailBytes;
  }

  lemma AdvanceConserved(s: Session, i: nat, recent: bool)
    requires TasksOk(s) && Conserved(s) && i < |s.tasks|
    ensures Conserved(AdvanceTask(s, i, recent))
  {
    hide TaskOk, NextTask, NextStates, NextEvents, Unresolved, Open;
    var t := s.tasks[i];
    ResolvedOnce(s, t, recent);
    UnresolvedUpdate(s.tasks, i, NextTask(s, t, recent));
    if Open(t) {
      OpenTaskCounts(s.tasks, i);
    }
    DoneStays(s, t, recent);
  }

  lemma DoneStays(s: Session, t: Task, recent: bool)
    ensures t.pc.Done? ==> NextTask(s, t, recent) == t
  {
  }

  lemma StepConserved(s: Session, a: Action)
    requires TasksOk(s) && Conserved(s)
    ensures Conserved(Step(s, a))
  {
    hide TaskOk, AdvanceTask;
    match a
    case Receive(key, probe) =>
      assert (s.tasks + [NewTask(key, probe)])[..|s.tasks|] == s.tasks;
    case Deliver(i, u) =>
      if i < |s.tasks| {
        UnresolvedUpdate(s.tasks, i, OnDeliver(s.tasks[i], u));
      }
    case Hangup(i) =>
      if i < |s.tasks| {
        UnresolvedUpdate(s.tasks, i, OnHangup(s.tasks[i]));
      }
    case Advance(i, recent) =>
      if i < |s.tasks| {
        AdvanceConserved(s, i, recent);
      }
    case Close =>
    case Conclude =>
  }

  // In every interleaving, active - completed is the number of unresolved
  // payload requests; so active never wraps and completed never passes it.
  lemma {:induction false} Conservation(total: u64, entryType: string, acts: seq<Action>)
    ensures TasksOk(Run(Init(total, entryType), acts))
    ensures Conserved(Run(Init(total, entryType), acts))
    ensures Run(Init(total, entryType), acts).total == total
    ensures Run(Init(total, entryType), acts).entryType == entryType
  {
    hide TaskOk, AdvanceTask, Conserved;
    if acts == [] {
      InitOk(total, entryType);
    } else {
      var before := acts[..|acts| - 1];
      Conservation(total, entryType, before);
      StepTasksOk(Run(Init(total, entryType), before), acts[|acts| - 1]);
      StepConserved(Run(Init(total, entryType), before), acts[|acts| - 1]);
      StepTotal(Run(Init(total, entryType), before), acts[|acts| - 1]);
    }
  }

  lemma InitOk(total: u64, entryType: string)
    ensures TasksOk(Init(total, entryType)) && Conserved(Init(total, entryType))
  {
  }

  lemma StepTotal(s: Session, a: Action)
    ensures Step(s, a).total == s.total && Step(s, a).entryType == s.entryType
  {
  }

  // The decrement never wraps around: the request it resolves is still counted.
  lemma NeverUnderflows(total: u64, entryType: string, acts: seq<Action>, i: nat)
    requires i < |Run(Init(total, entryType), acts).tasks| && Run(Init(total, entryType), acts).tasks[i].pc.Decrement?
    ensures var s := Run(Init(total, entryType), acts);
            s.completed < s.active && AdvanceTask(s, i, false).active == s.active - 1
  {
    Conservation(total, entryType, acts);
    hide Run;
    var s := Run(Init(total, entryType), acts);
    assert TaskOk(s.completed, s.startedFlag, s.total, s.tasks[i]);
    OpenTaskCounts(s.tasks, i);
  }

  // ------------------------------------------------------ who moved the counters

  // Payload: counted when it was received. Good: passed the 95% test, or was
  // aborted, which is the only way to end without being judged. Short: failed
  // the test. Live: started and not ended by Completed or Aborted.
  datatype Kind = Payload | Good | Short | Live

  predicate Is(total: u64, kind: Kind, t: Task) {
    !t.probe &&
    match kind
    case Payload => true
    case Good => t.resolved && if t.judged.None? then t.ended else PayloadComplete(t.judged.value, total)
    case Short => t.resolved && t.judged.Some? && !PayloadComplete(t.judged.value, total)
    case Live => InMap(t)
  }

  function Tally(total: u64, kind: Kind, tasks: seq<Task>): nat {
    if tasks == [] then 0
    else Tally(total, kind, tasks[..|tasks| - 1]) + if Is(total, kind, tasks[|tasks| - 1]) then 1 else 0
  }

  lemma {:induction false} TallyUpdate(total: u64, kind: Kind, tasks: seq<Task>, i: nat, t: Task)
    requires i < |tasks|
    ensures Tally(total, kind, tasks[i := t]) == Tally(total, kind, tasks)
              - (if Is(total, kind, tasks[i]) then 1 else 0) + (if Is(total, kind, t) then 1 else 0)
  {
    hide Is;
    var n := |tasks| - 1;
    if i < n {
      assert tasks[i := t][..n] == tasks[..n][i := t];
      TallyUpdate(total, kind, tasks[..n], i, t);
    } else {
      assert tasks[i := t][..n] == tasks[..n];
    }
  }

  lemma TallySnoc(total: u64, kind: Kind, tasks: seq<Task>, t: Task)
    ensures Tally(total, kind, tasks + [t]) == Tally(total, kind, tasks) + if Is(total, kind, t) then 1 else 0
  {
    assert (tasks + [t])[..|tasks|] == tasks;
  }

  // A request is judged just before it is resolved, and an abort is no verdict.
  predicate VerdictOk(total: u64, t: Task) {
    && (!t.resolved && !t.pc.Decrement? && !t.pc.Increment? ==> t.judged.None?)
    && (t.pc.Decrement? ==> t.judged.Some? && !PayloadComplete(t.judged.value, total))
    && (t.pc.Increment? ==> t.judged.Some? && PayloadComplete(t.judged.value, total))
    && (t.resolved && t.judged.None? ==> t.ended)
  }

  predicate VerdictsOk(s: Session) {
    forall i :: 0 <= i < |s.tasks| ==> VerdictOk(s.total, s.tasks[i])
  }

  // Each request is open or has one of the two verdicts.
  lemma {:induction false} Partition(total: u64, tasks: seq<Task>)
    requires forall i :: 0 <= i < |tasks| ==> VerdictOk(total, tasks[i])
    ensures Tally(total, Payload, tasks)
         == Tally(total, Good, tasks) + Tally(total, Short, tasks) + Unresolved(tasks)
  {
    hide PayloadComplete;
    if tasks != [] {
      Partition(total, tasks[..|tasks| - 1]);
      assert VerdictOk(total, tasks[|tasks| - 1]);
    }
  }

  lemma NextVerdict(s: Session, t: Task, recent: bool)
    requires TaskOk(s.completed, s.startedFlag, s.total, t) && VerdictOk(s.total, t) && !t.probe
    ensures VerdictOk(s.total, NextTask(s, t, recent))
    ensures Is(s.total, Good, NextTask(s, t, recent)) <==>
            Is(s.total, Good, t) || t.pc.Increment? || t.pc.AbortIncrement?
    ensures Is(s.total, Good, t) ==> !t.pc.Increment? && !t.pc.AbortIncrement?
  {
    hide PayloadComplete, SettledBytes, TailBytes;
  }

  lemma ProbeIdles(s: Session, t: Task, recent: bool)
    requires TaskOk(s.completed, s.startedFlag, s.total, t) && t.probe
    ensures NextTask(s, t, recent) == t
  {
  }

  lemma StepVerdicts(s: Session, a: Action)
    requires TasksOk(s) && VerdictsOk(s)
    ensures VerdictsOk(Step(s, a))
  {
    StepTotal(s, a);
    forall i | 0 <= i < |Step(s, a).tasks|
      ensures VerdictOk(s.total, Step(s, a).tasks[i])
    {
      StepTask(s, a, i);
      hide Step, NextTask, TaskOk, PayloadComplete;
      if i < |s.tasks| && a.Advance? && a.task == i {
        if s.tasks[i].probe {
          ProbeIdles(s, s.tasks[i], a.recent);
        } else {
          NextVerdict(s, s.tasks[i], a.recent);
        }
      }
    }
  }

  lemma StepGood(s: Session, a: Action)
    requires TasksOk(s) && VerdictsOk(s) && s.completed == Tally(s.total, Good, s.tasks)
    ensures Step(s, a).completed == Tally(s.total, Good, Step(s, a).tasks)
  {
    hide TaskOk, VerdictOk, NextStates, NextEvents, NextTask, PayloadComplete, Tally;
    match a
    case Receive(key, probe) =>
      TallySnoc(s.total, Good, s.tasks, NewTask(key, probe));
    case Deliver(i, u) =>
      if i < |s.tasks| {
        TallyUpdate(s.total, Good, s.tasks, i, OnDeliver(s.tasks[i], u));
      }
    case Hangup(i) =>
      if i < |s.tasks| {
        TallyUpdate(s.total, Good, s.tasks, i, OnHangup(s.tasks[i]));
      }
    case Advance(i, recent) =>
      if i < |s.tasks| {
        var t := s.tasks[i];
        TallyUpdate(s.total, Good, s.tasks, i, NextTask(s, t, recent));
        if t.probe {
          ProbeIdles(s, t, recent);
          ProbePc(s, t);
        } else {
          NextVerdict(s, t, recent);
        }
      }
    case Close =>
    case Conclude =>
  }

  lemma ProbePc(s: Session, t: Task)
    requires TaskOk(s.completed, s.startedFlag, s.total, t) && t.probe
    ensures t.pc.Idle? || t.pc.Done?
  {
  }

  // In every run, completed counts the requests that passed the test or were
  // aborted, and active the payload requests received less those that failed.
  lemma {:induction false} CountersExact(total: u64, entryType: string, acts: seq<Action>)
    ensures var s := Run(Init(total, entryType), acts);
            && VerdictsOk(s)
            && s.completed == Tally(total, Good, s.tasks)
            && s.active == Tally(total, Payload, s.tasks) - Tally(total, Short, s.tasks)
  {
    hide Step, TasksOk, VerdictOk, Tally;
    if acts == [] {
      NoCounters(total, entryType);
    } else {
      var n := |acts| - 1;
      var before := Run(Init(total, entryType), acts[..n]);
      Conservation(total, entryType, acts[..n]);
      CountersExact(total, entryType, acts[..n]);
      StepVerdicts(before, acts[n]);
      StepGood(before, acts[n]);
    }
    Conservation(total, entryType, acts);
    Partition(total, Run(Init(total, entryType), acts).tasks);
  }

  lemma NoCounters(total: u64, entryType: string)
    ensures var s := Init(total, entryType); VerdictsOk(s) && s.completed == Tally(total, Good, s.tasks)
  {
  }

  // The requests received, in order, until the provider channel ends.
  function Arrivals(acts: seq<Action>): seq<(Key, bool)> {
    if acts == [] then [] else
    var n := |acts| - 1;
    Arrivals(acts[..n])
    + if acts[n].Receive? && Close !in acts[..n] then [(acts[n].key, acts[n].probe)] else []
  }

  // There is a task for each of them and no other.
  lemma {:induction false} TasksArrive(total: u64, entryType: string, acts: seq<Action>)
    ensures var s, arrivals := Run(Init(total, entryType), acts), Arrivals(acts);
            && (s.main.Looping? <==> Close !in acts)
            && |s.tasks| == |arrivals|
            && forall i :: 0 <= i < |arrivals| ==> (s.tasks[i].key, s.tasks[i].probe) == arrivals[i]
  {
    if acts != [] {
      var n := |acts| - 1;
      TasksArrive(total, entryType, acts[..n]);
      assert acts == acts[..n] + [acts[n]];
      StepArrives(Run(Init(total, entryType), acts[..n]), acts[n]);
    }
  }

  lemma StepArrives(s: Session, a: Action)
    ensures var s' := Step(s, a);
            && (s'.main.Looping? <==> s.main.Looping? && a != Close)
            && |s'.tasks| == |s.tasks| + (if a.Receive? && s.main.Looping? then 1 else 0)
            && (forall i :: 0 <= i < |s.tasks| ==> s'.tasks[i].key == s.tasks[i].key
                                                   && s'.tasks[i].probe == s.tasks[i].probe)
            && (a.Receive? && s.main.Looping? ==>
                  s'.tasks[|s.tasks|].key == a.key && s'.tasks[|s.tasks|].probe == a.probe)
  {
    hide NextPc, NextStates, NextEvents;
  }

  // ------------------------------------------------- reads that may be out of date

  // Counters are read one after the other, with other tasks running between. A
  // count of completions that is old but still covers the active requests read
  // now means that nothing is unresolved now.
  lemma StaleReadIsQuiet(s: Session, i: nat)
    requires TasksOk(s) && Conserved(s) && i < |s.tasks|
    requires var pc := s.tasks[i].pc;
             (pc.LoadActive? || pc.LoadAgain? || pc.AbortLoad?) && pc.count >= s.active
    ensures Unresolved(s.tasks) == 0
  {
    assert TaskOk(s.completed, s.startedFlag, s.total, s.tasks[i]);
  }

  // Every received payload request is resolved, and one was completed.
  predicate Quiet(s: Session) {
    Unresolved(s.tasks) == 0 && s.completed >= 1
  }

  lemma QuietRead(s: Session, i: nat)
    requires TasksOk(s) && Conserved(s) && i < |s.tasks|
    requires var pc := s.tasks[i].pc; (pc.LoadActive? || pc.LoadAgain?) && pc.count >= s.active && pc.count >= 1
    ensures Quiet(s)
  {
    StaleReadIsQuiet(s, i);
    assert TaskOk(s.completed, s.startedFlag, s.total, s.tasks[i]);
  }

  // How a task gets from one check to the next.
  lemma CheckPassed(s: Session, t: Task, recent: bool)
    ensures var pc := NextPc(s, t, recent);
            && (pc.Sleep? ==> t.pc.LoadActive? && t.pc.count >= s.active && t.pc.count >= 1 && pc.before == s.active)
            && (pc.LoadAgain? ==> t.pc.Sleep? && t.pc.before == pc.before)
            && (pc.LookAtStates? && pc.quiet ==>
                  t.pc.LoadAgain? && t.pc.count >= s.active && t.pc.count >= 1 && s.active <= t.pc.before)
            && (pc.LookAtClock? && pc.quiet ==> t.pc.LookAtStates? && t.pc.quiet && |s.states| == 0)
            && (pc.SwapCompleted? ==> t.pc.LookAtClock? && t.pc.quiet && !recent)
  {
    hide PayloadComplete, SettledBytes, TailBytes;
  }

  // The checks a task has passed by the time it is at a position: 1 the first
  // counter check, 2 the second, 3 the map, 4 the clock.
  function Checks(pc: Pc): nat {
    if pc.Sleep? || pc.LoadAgain? then 1
    else if pc.LookAtStates? && pc.quiet then 2
    else if pc.LookAtClock? && pc.quiet then 3
    else if pc.SwapCompleted? then 4
    else 0
  }

  lemma MovedByItself(s: Session, a: Action, i: nat)
    requires i < |Step(s, a).tasks| && Checks(Step(s, a).tasks[i].pc) > 0
    ensures i < |s.tasks|
    ensures Step(s, a).tasks[i].pc == s.tasks[i].pc
         || (a.Advance? && a.task == i && Step(s, a).tasks[i].pc == NextPc(s, s.tasks[i], a.recent))
  {
    StepTask(s, a, i);
    hide Step, NextPc;
  }

  // The moments at which a task passed its checks, in order: twice every
  // request received by then was resolved, with no more of them the second
  // time; then no transfer state was left; then the last request was not recent.
  ghost predicate Trail(total: u64, entryType: string, acts: seq<Action>, i: nat, pc: Pc, k: seq<nat>) {
    && |k| == Checks(pc)
    && (forall j :: 0 <= j < |k| ==> k[j] < |acts|)
    && (forall j :: 1 <= j < |k| ==> k[j - 1] < k[j])
    && (|k| == 1 ==> (pc.Sleep? || pc.LoadAgain?) && Run(Init(total, entryType), acts[..k[0]]).active == pc.before)
    && (|k| >= 1 ==> Quiet(Run(Init(total, entryType), acts[..k[0]])))
    && (|k| >= 2 ==> var first := Run(Init(total, entryType), acts[..k[0]]);
                     var second := Run(Init(total, entryType), acts[..k[1]]);
                     Quiet(second) && second.active <= first.active)
    && (|k| >= 3 ==> |Run(Init(total, entryType), acts[..k[2]]).states| == 0)
    && (|k| >= 4 ==> acts[k[3]] == Advance(i, false))
  }

  lemma TrailLonger(total: u64, entryType: string, acts: seq<Action>, n: nat, i: nat, pc: Pc, k: seq<nat>)
    requires n <= |acts| && Trail(total, entryType, acts[..n], i, pc, k)
    ensures Trail(total, entryType, acts, i, pc, k)
  {
    hide Run, Quiet;
    assert forall j :: 0 <= j < |k| ==> acts[..n][..k[j]] == acts[..k[j]];
  }

  lemma {:induction false} PassedChecks(total: u64, entryType: string, acts: seq<Action>, i: nat) returns (k: seq<nat>)
    requires i < |Run(Init(total, entryType), acts).tasks|
    ensures Trail(total, entryType, acts, i, Run(Init(total, entryType), acts).tasks[i].pc, k)
  {
    hide Step, NextPc, TasksOk, Conserved, Quiet;
    k := [];
    var pc := Run(Init(total, entryType), acts).tasks[i].pc;
    if acts != [] && Checks(pc) > 0 {
      var n := |acts| - 1;
      var before := Run(Init(total, entryType), acts[..n]);
      Conservation(total, entryType, acts[..n]);
      MovedByItself(before, acts[n], i);
      k := PassedChecks(total, entryType, acts[..n], i);
      TrailLonger(total, entryType, acts, n, i, before.tasks[i].pc, k);
      if pc != before.tasks[i].pc {
        CheckPassed(before, before.tasks[i], acts[n].recent);
        if pc.Sleep? || pc.LookAtStates? {
          QuietRead(before, i);
        }
        if !pc.LoadAgain? {
          k := k + [n];
        }
      }
    }
  }

  // ------------------------------------------------------------- what is emitted

  // A resolved request keeps its verdict and its history.
  predicate Frozen(t: Task, t': Task) {
    t' == t.(pc := t'.pc)
  }

  lemma ResolvedIsFrozen(s: Session, a: Action, i: nat)
    requires TasksOk(s) && i < |s.tasks| && s.tasks[i].resolved
    ensures i < |Step(s, a).tasks| && Frozen(s.tasks[i], Step(s, a).tasks[i])
  {
    assert TaskOk(s.completed, s.startedFlag, s.total, s.tasks[i]);
    TasksGrow(s, a);
    StepTask(s, a, i);
    hide Step;
  }

  lemma TasksGrow(s: Session, a: Action)
    ensures |s.tasks| <= |Step(s, a).tasks|
  {
  }

  // The event a step adds, if any.
  function Emitted(s: Session, a: Action): seq<Event> {
    match a
    case Advance(i, _) => if i < |s.tasks| then NextEvents(s, i, s.tasks[i]) else []
    case Conclude =>
      if s.main.Loaded? && s.main.count >= s.active && s.main.count >= 1 && !s.completedFlag
      then [TransferCompleted(None)] else []
    case _ => []
  }

  lemma StepEvents(s: Session, a: Action)
    ensures Step(s, a).events == s.events + Emitted(s, a) && |Emitted(s, a)| <= 1
    ensures Step(s, a).startedFlag <==> s.startedFlag || TransferStarted in Emitted(s, a)
    ensures Step(s, a).completedFlag <==> s.completedFlag || exists e :: e in Emitted(s, a) && e.TransferCompleted?
    ensures s.completedFlag ==> forall e :: e in Emitted(s, a) ==> !e.TransferCompleted?
  {
    hide NextTask, NextStates;
    if Emitted(s, a) != [] {
      assert Emitted(s, a)[0] in Emitted(s, a);
    }
  }

  function Completions(events: seq<Event>): nat {
    if events == [] then 0
    else Completions(events[..|events| - 1]) + if events[|events| - 1].TransferCompleted? then 1 else 0
  }

  lemma CompletionsSnoc(events: seq<Event>, e: Event)
    ensures Completions(events + [e]) == Completions(events) + if e.TransferCompleted? then 1 else 0
  {
    assert (events + [e])[..|events|] == events;
  }

  predicate OrderOk(events: seq<Event>) {
    forall j :: 0 <= j < |events| && events[j].TransferCompleted? ==> TransferStarted in events[..j]
  }

  predicate SourceOk(s: Session, e: Event) {
    e.TransferCompleted? && e.source.Some? ==>
      e.source.value < |s.tasks| && s.tasks[e.source.value].resolved && Passed(s.total, s.tasks[e.source.value])
  }

  predicate SourcesOk(s: Session) {
    forall e :: e in s.events ==> SourceOk(s, e)
  }

  predicate FlagsOk(s: Session) {
    && (s.startedFlag <==> TransferStarted in s.events)
    && Completions(s.events) == (if s.completedFlag then 1 else 0)
    && OrderOk(s.events)
  }

  // A completion is emitted only by a task at its last check, or by the session
  // at its end; either way the transfer has started.
  lemma EmittedCompletion(s: Session, a: Action, e: Event)
    requires TasksOk(s) && Conserved(s) && e in Emitted(s, a) && e.TransferCompleted?
    ensures s.startedFlag
    ensures e.source.Some? ==> a.Advance? && e.source.value == a.task < |s.tasks| && s.tasks[a.task].pc.SwapCompleted?
  {
    hide NextTask, NextStates;
    if a.Advance? {
      assert TaskOk(s.completed, s.startedFlag, s.total, s.tasks[a.task]);
    }
  }

  lemma OrderSnoc(events: seq<Event>, e: Event)
    requires OrderOk(events) && (e.TransferCompleted? ==> TransferStarted in events)
    ensures OrderOk(events + [e])
  {
    var longer := events + [e];
    assert forall j :: 0 <= j < |events| ==> longer[j] == events[j] && longer[..j] == events[..j];
    assert longer[..|events|] == events;
  }

  lemma StepFlagsOk(s: Session, a: Action)
    requires TasksOk(s) && Conserved(s) && FlagsOk(s)
    ensures FlagsOk(Step(s, a))
  {
    hide Step, Emitted, TasksOk, Conserved, Completions, OrderOk;
    StepEvents(s, a);
    var s', added := Step(s, a), Emitted(s, a);
    if added == [] {
      assert s'.events == s.events;
    } else {
      var e := added[0];
      assert added == [e] && e in added;
      CompletionsSnoc(s.events, e);
      if e.TransferCompleted? {
        EmittedCompletion(s, a, e);
      }
      OrderSnoc(s.events, e);
    }
  }

  lemma StepSourcesOk(s: Session, a: Action)
    requires TasksOk(s) && Conserved(s) && SourcesOk(s)
    ensures SourcesOk(Step(s, a))
  {
    StepEvents(s, a);
    StepTotal(s, a);
    StepTasksOk(s, a);
    hide Emitted, Conserved;
    var s' := Step(s, a);
    forall e | e in s'.events
      ensures SourceOk(s', e)
    {
      if e in s.events {
        if e.TransferCompleted? && e.source.Some? {
          ResolvedIsFrozen(s, a, e.source.value);
        }
      } else {
        assert e in Emitted(s, a);
        if e.TransferCompleted? {
          EmittedCompletion(s, a, e);
          if e.source.Some? {
            assert TaskOk(s.completed, s.startedFlag, s.total, s.tasks[a.task]);
            ResolvedIsFrozen(s, a, a.task);
          }
        }
      }
    }
  }

  // transfer-completed is emitted at most once per session and never before
  // transfer-started; inside a request task it comes from a request that
  // passed the 95% test.
  lemma {:induction false} Emissions(total: u64, entryType: string, acts: seq<Action>)
    ensures FlagsOk(Run(Init(total, entryType), acts))
    ensures SourcesOk(Run(Init(total, entryType), acts))
    ensures Completions(Run(Init(total, entryType), acts).events) <= 1
  {
    hide Step, SourcesOk;
    if acts != [] {
      var n := |acts| - 1;
      Conservation(total, entryType, acts[..n]);
      Emissions(total, entryType, acts[..n]);
      StepFlagsOk(Run(Init(total, entryType), acts[..n]), acts[n]);
      StepSourcesOk(Run(Init(total, entryType), acts[..n]), acts[n]);
    } else {
      InitSources(total, entryType);
    }
  }

  lemma InitSources(total: u64, entryType: string)
    ensures SourcesOk(Init(total, entryType))
  {
  }

  // ---------------------------------------------------- the map of transfer states

  // No two payload requests share a (connection, request) pair.
  predicate DistinctKeys(s: Session) {
    forall i, j :: 0 <= i < j < |s.tasks| && !s.tasks[i].probe && !s.tasks[j].probe
      ==> s.tasks[i].key != s.tasks[j].key
  }

  // Started and not ended by Completed or Aborted. The tail branch leaves its
  // entry behind.
  predicate InMap(t: Task) {
    !t.probe && !t.ended && (t.started || t.pc.Announce?)
  }

  // A request's entry is the replay of the updates it has applied.
  predicate EntryOk(total: u64, entryType: string, t: Task, st: TransferState) {
    if t.seen == [] then (t.pc.Announce? || t.pc.Modify?) && st == Fresh(total, t.pc.u)
    else if t.pc.Remove? then t.pc.bytes == Settle(Replay(total, entryType, t.seen)).accounted
    else st == Replay(total, entryType, t.seen)
  }

  // Past the judgement of the tail branch.
  predicate InTail(pc: Pc) {
    || pc.Done?
    || ((|| pc.Decrement? || pc.Increment? || pc.LoadActive? || pc.Sleep? || pc.LoadAgain?
         || pc.LookAtStates? || pc.LookAtClock? || pc.SwapCompleted?) && pc.tail)
  }

  predicate HistoryOk(s: Session, t: Task) {
    && (InMap(t) ==> t.key in s.states && EntryOk(s.total, s.entryType, t, s.states[t.key]))
    && (!t.started ==> t.seen == [])
    && (t.ended && t.judged.Some? ==>
          t.seen != [] && t.judged.value == Min(s.total, Counted(s.entryType, t.seen)))
    && (t.judged.Some? && !t.ended ==>
          InTail(t.pc) && t.seen != [] && t.judged.value == Min(s.total, BlobsDone(s.entryType, t.seen)))
    && (t.pc.LookAtClock? && t.pc.tail ==> !t.pc.quiet)
    && (t.pc.SwapCompleted? ==> !t.pc.tail)
  }

  predicate HistoriesOk(s: Session) {
    forall i :: 0 <= i < |s.tasks| ==> HistoryOk(s, s.tasks[i])
  }

  // Every key of the map belongs to such a request.
  predicate Owned(s: Session, k: Key) {
    exists i :: 0 <= i < |s.tasks| && InMap(s.tasks[i]) && s.tasks[i].key == k
  }

  predicate AllOwned(s: Session) {
    forall k :: k in s.states ==> Owned(s, k)
  }

  // The steps that change the map.
  predicate Writes(pc: Pc) {
    pc.Insert? || pc.Modify? || pc.Account? || pc.Remove? || pc.AbortRemove?
  }

  lemma OwnHistory(s: Session, t: Task, recent: bool)
    requires TaskOk(s.completed, s.startedFlag, s.total, t) && HistoryOk(s, t)
    ensures HistoryOk(s.(states := NextStates(s, t)), NextTask(s, t, recent))
  {
    hide *;
    if Writes(t.pc) {
      WriterHistory(s, t, recent);
    } else {
      ReaderHistory(s, t, recent);
    }
  }

  lemma WriterHistory(s: Session, t: Task, recent: bool)
    requires TaskOk(s.completed, s.startedFlag, s.total, t) && HistoryOk(s, t) && Writes(t.pc)
    ensures HistoryOk(s.(states := NextStates(s, t)), NextTask(s, t, recent))
  {
    hide PayloadComplete, Apply, Settle, Replay, Counted, BlobsDone, Min, Passed, Fresh, TailBytes;
    if t.pc.Modify? {
      ReplaySnoc(s.total, s.entryType, t.seen, t.pc.u);
    }
    if t.pc.Remove? {
      AccountedAtCompletion(s.total, s.entryType, t.seen);
    }
  }

  lemma ReaderHistory(s: Session, t: Task, recent: bool)
    requires TaskOk(s.completed, s.startedFlag, s.total, t) && HistoryOk(s, t) && !Writes(t.pc)
    ensures HistoryOk(s.(states := NextStates(s, t)), NextTask(s, t, recent))
  {
    hide PayloadComplete, Apply, Settle, Replay, Counted, BlobsDone, Min, Passed, Fresh;
    if t.pc.LookAtStates? && t.pc.tail {
      NonEmpty(s.states, t.key);
    }
    if t.pc.ReadTail? {
      AccountedIsBlobsDone(s.total, s.entryType, t.seen);
    }
  }

  lemma NonEmpty(m: map<Key, TransferState>, k: Key)
    requires k in m
    ensures |m| != 0
  {
    assert m != map[];
  }

  lemma OtherHistory(s: Session, t: Task, other: Task)
    requires TaskOk(s.completed, s.startedFlag, s.total, t) && HistoryOk(s, other)
    requires t.probe || other.probe || t.key != other.key
    ensures HistoryOk(s.(states := NextStates(s, t)), other)
  {
    hide PayloadComplete, Apply, Settle, Replay, Counted, BlobsDone, Min;
  }

  lemma DeliveredHistory(s: Session, t: Task, u: Update)
    requires TaskOk(s.completed, s.startedFlag, s.total, t) && HistoryOk(s, t) && t.pc.Idle?
    ensures HistoryOk(s, OnDeliver(t, u)) && HistoryOk(s, OnHangup(t))
  {
    hide Replay, Counted, BlobsDone, Min, Settle;
  }

  lemma HistorySameStates(s: Session, s': Session, t: Task)
    requires HistoryOk(s, t) && s.states == s'.states && s.total == s'.total && s.entryType == s'.entryType
    ensures HistoryOk(s', t)
  {
    hide EntryOk, Counted, BlobsDone;
  }

  lemma AdvanceHistories(s: Session, i: nat, recent: bool)
    requires TasksOk(s) && HistoriesOk(s) && DistinctKeys(s) && i < |s.tasks|
    ensures HistoriesOk(AdvanceTask(s, i, recent))
  {
    hide TaskOk, HistoryOk, NextTask, NextStates, NextEvents;
    var s', t := AdvanceTask(s, i, recent), s.tasks[i];
    var mid := s.(states := NextStates(s, t));
    forall j | 0 <= j < |s'.tasks|
      ensures HistoryOk(s', s'.tasks[j])
    {
      if j == i {
        OwnHistory(s, t, recent);
      } else {
        assert t.probe || s.tasks[j].probe || t.key != s.tasks[j].key;
        OtherHistory(s, t, s.tasks[j]);
      }
      HistorySameStates(mid, s', s'.tasks[j]);
    }
  }

  lemma StepHistories(s: Session, a: Action)
    requires TasksOk(s) && HistoriesOk(s) && DistinctKeys(s)
    ensures HistoriesOk(Step(s, a))
  {
    hide AdvanceTask, TaskOk, HistoryOk;
    if a.Advance? && a.task < |s.tasks| {
      AdvanceHistories(s, a.task, a.recent);
    } else {
      var s' := Step(s, a);
      forall i | 0 <= i < |s'.tasks|
        ensures HistoryOk(s', s'.tasks[i])
      {
        StepTask(s, a, i);
        if i < |s.tasks| {
          if s.tasks[i].pc.Idle? && a.Deliver? {
            DeliveredHistory(s, s.tasks[i], a.u);
          }
          if s.tasks[i].pc.Idle? && a.Hangup? {
            DeliveredHistory(s, s.tasks[i], Completed);
          }
          HistorySameStates(s, s', s'.tasks[i]);
        } else {
          NewHistory(s', a.key, a.probe);
        }
      }
    }
  }

  lemma NewHistory(s: Session, key: Key, probe: bool)
    ensures HistoryOk(s, NewTask(key, probe))
  {
  }

  // Keys never change and requests are only added.
  lemma StepKeys(s: Session, a: Action)
    ensures |s.tasks| <= |Step(s, a).tasks|
    ensures forall i :: 0 <= i < |s.tasks| ==>
              Step(s, a).tasks[i].key == s.tasks[i].key && Step(s, a).tasks[i].probe == s.tasks[i].probe
  {
    hide NextPc, NextStates, NextEvents;
  }

  lemma {:induction false} Histories(total: u64, entryType: string, acts: seq<Action>)
    requires DistinctKeys(Run(Init(total, entryType), acts))
    ensures HistoriesOk(Run(Init(total, entryType), acts))
  {
    hide Step, HistoryOk, TaskOk;
    if acts != [] {
      var n := |acts| - 1;
      var before := Run(Init(total, entryType), acts[..n]);
      StepKeys(before, acts[n]);
      assert DistinctKeys(before);
      Histories(total, entryType, acts[..n]);
      Conservation(total, entryType, acts[..n]);
      StepHistories(before, acts[n]);
    }
  }

  // The progress a request shows is the accounting of exactly the updates it
  // has applied, so it is bounded by the total and, with the metadata blob
  // first, never goes back.
  lemma ProgressIsReplay(s: Session, i: nat)
    requires HistoriesOk(s) && i < |s.tasks| && InMap(s.tasks[i])
    requires s.tasks[i].pc.Modify? && s.tasks[i].pc.u.Progress?
    ensures var t := s.tasks[i];
            var bytes := Transferred(Replay(s.total, s.entryType, t.seen + [t.pc.u]));
            bytes <= s.total && NextEvents(s, i, t) == [ProgressShown(i, bytes)]
  {
    hide Apply, Transferred;
    var t := s.tasks[i];
    assert HistoryOk(s, t);
    ReplaySnoc(s.total, s.entryType, t.seen, t.pc.u);
    ShownBounded(s.total, s.entryType, t.seen + [t.pc.u]);
    if t.seen != [] {
      ReplayReflects(s.total, s.entryType, t.seen);
    }
  }

  lemma OwnedStays(s: Session, i: nat, recent: bool, k: Key, j: nat)
    requires TasksOk(s) && DistinctKeys(s) && i < |s.tasks| && j < |s.tasks|
    requires InMap(s.tasks[j]) && s.tasks[j].key == k && k in NextStates(s, s.tasks[i])
    ensures InMap(AdvanceTask(s, i, recent).tasks[j]) && AdvanceTask(s, i, recent).tasks[j].key == k
  {
    hide NextPc, NextEvents, Apply, Settle;
    assert TaskOk(s.completed, s.startedFlag, s.total, s.tasks[j]);
  }

  lemma StepOwned(s: Session, a: Action)
    requires TasksOk(s) && AllOwned(s) && DistinctKeys(s)
    ensures AllOwned(Step(s, a))
  {
    hide TaskOk, NextPc, NextEvents, Apply, Settle;
    var s' := Step(s, a);
    TasksGrow(s, a);
    forall k | k in s'.states
      ensures Owned(s', k)
    {
      if k in s.states {
        var j :| 0 <= j < |s.tasks| && InMap(s.tasks[j]) && s.tasks[j].key == k;
        StepTask(s, a, j);
        if a.Advance? && a.task < |s.tasks| {
          OwnedStays(s, a.task, a.recent, k, j);
        }
        assert InMap(s'.tasks[j]) && s'.tasks[j].key == k;
      } else {
        InsertedOwn(s, a, k);
        assert InMap(s'.tasks[a.task]) && s'.tasks[a.task].key == k;
      }
    }
  }

  lemma InsertedOwn(s: Session, a: Action, k: Key)
    requires TasksOk(s) && k !in s.states && k in Step(s, a).states
    ensures a.Advance? && a.task < |s.tasks| && InMap(Step(s, a).tasks[a.task]) && Step(s, a).tasks[a.task].key == k
  {
    hide NextEvents, Apply, Settle;
    assert TaskOk(s.completed, s.startedFlag, s.total, s.tasks[a.task]);
  }

  // The keys of the map are exactly the requests that have started and were not
  // ended by Completed or Aborted.
  lemma {:induction false} MapKeys(total: u64, entryType: string, acts: seq<Action>)
    requires DistinctKeys(Run(Init(total, entryType), acts))
    ensures var s := Run(Init(total, entryType), acts);
            forall k :: k in s.states <==> Owned(s, k)
  {
    Histories(total, entryType, acts);
    MapOwned(total, entryType, acts);
    hide Run;
    var s := Run(Init(total, entryType), acts);
    forall k | Owned(s, k)
      ensures k in s.states
    {
      var i :| 0 <= i < |s.tasks| && InMap(s.tasks[i]) && s.tasks[i].key == k;
      assert HistoryOk(s, s.tasks[i]);
    }
  }

  lemma {:induction false} MapOwned(total: u64, entryType: string, acts: seq<Action>)
    requires DistinctKeys(Run(Init(total, entryType), acts))
    ensures AllOwned(Run(Init(total, entryType), acts))
  {
    hide Step, TaskOk, Owned;
    if acts != [] {
      var n := |acts| - 1;
      var before := Run(Init(total, entryType), acts[..n]);
      StepKeys(before, acts[n]);
      assert DistinctKeys(before);
      MapOwned(total, entryType, acts[..n]);
      Conservation(total, entryType, acts[..n]);
      StepOwned(before, acts[n]);
    }
  }

  // --------------------------------------------------- the connections shown

  lemma MapUpdateSize(m: map<Key, TransferState>, k: Key, v: TransferState)
    ensures |m[k := v]| == |m| + if k in m then 0 else 1
  {
    if k in m {
      assert m[k := v].Keys == m.Keys;
    } else {
      assert m[k := v].Keys == m.Keys + {k};
    }
  }

  lemma MapRemoveSize(m: map<Key, TransferState>, k: Key)
    requires k in m
    ensures |m - {k}| == |m| - 1
  {
    assert (m - {k}).Keys == m.Keys - {k};
  }

  // One step of a live or starting request changes the map by its own entry.
  lemma NextLive(s: Session, i: nat, recent: bool)
    requires TasksOk(s) && HistoriesOk(s) && AllOwned(s) && DistinctKeys(s) && i < |s.tasks|
    ensures var t := s.tasks[i];
            |NextStates(s, t)| == |s.states| - (if Is(s.total, Live, t) then 1 else 0)
                                  + (if Is(s.total, Live, NextTask(s, t, recent)) then 1 else 0)
  {
    var t := s.tasks[i];
    hide PayloadComplete, Apply, Settle, EntryOk, Verdict, Then, Owned;
    assert TaskOk(s.completed, s.startedFlag, s.total, t) && HistoryOk(s, t);
    if t.pc.Insert? {
      EndedHasNoEntry(s, i);
      MapUpdateSize(s.states, t.key, Fresh(s.total, t.pc.u));
    } else if t.pc.Modify? && t.key in s.states {
      MapUpdateSize(s.states, t.key, Apply(s.entryType, s.states[t.key], t.pc.u));
    } else if t.pc.Account? {
      MapUpdateSize(s.states, t.key, Settle(s.states[t.key]));
    } else if t.pc.Remove? || t.pc.AbortRemove? {
      MapRemoveSize(s.states, t.key);
    }
  }

  lemma StepLive(s: Session, a: Action)
    requires TasksOk(s) && HistoriesOk(s) && AllOwned(s) && DistinctKeys(s)
    requires |s.states| == Tally(s.total, Live, s.tasks)
    ensures |Step(s, a).states| == Tally(s.total, Live, Step(s, a).tasks)
  {
    hide TaskOk, HistoriesOk, AllOwned, NextStates, NextEvents, NextTask, Tally;
    match a
    case Receive(key, probe) =>
      TallySnoc(s.total, Live, s.tasks, NewTask(key, probe));
    case Deliver(i, u) =>
      if i < |s.tasks| {
        TallyUpdate(s.total, Live, s.tasks, i, OnDeliver(s.tasks[i], u));
      }
    case Hangup(i) =>
      if i < |s.tasks| {
        TallyUpdate(s.total, Live, s.tasks, i, OnHangup(s.tasks[i]));
      }
    case Advance(i, recent) =>
      if i < |s.tasks| {
        TallyUpdate(s.total, Live, s.tasks, i, NextTask(s, s.tasks[i], recent));
        NextLive(s, i, recent);
      }
    case Close =>
    case Conclude =>
  }

  // The connection count last shown, 0 if none was.
  function LastConnections(events: seq<Event>): nat {
    if events == [] then 0
    else if events[|events| - 1].ActiveConnections? then events[|events| - 1].count
    else LastConnections(events[..|events| - 1])
  }

  lemma ConnectionsSnoc(events: seq<Event>, more: seq<Event>)
    requires |more| <= 1
    ensures LastConnections(events + more)
         == if more != [] && more[0].ActiveConnections? then more[0].count else LastConnections(events)
  {
    if more == [] {
      assert events + more == events;
    } else {
      assert (events + more)[..|events|] == events;
    }
  }

  // A task's step shows the size of the map, or leaves it as it is.
  lemma NextConnections(s: Session, i: nat, t: Task)
    ensures var added := NextEvents(s, i, t);
            if added != [] && added[0].ActiveConnections? then added[0].count == |NextStates(s, t)|
            else |NextStates(s, t)| == |s.states|
  {
    hide Apply, Settle, Transferred, Min;
    if t.pc.Modify? && t.key in s.states {
      MapUpdateSize(s.states, t.key, Apply(s.entryType, s.states[t.key], t.pc.u));
    } else if t.pc.Account? && t.key in s.states {
      MapUpdateSize(s.states, t.key, Settle(s.states[t.key]));
    }
  }

  lemma StepConnections(s: Session, a: Action)
    requires LastConnections(s.events) == |s.states|
    ensures LastConnections(Step(s, a).events) == |Step(s, a).states|
  {
    StepEvents(s, a);
    ConnectionsSnoc(s.events, Emitted(s, a));
    StepMap(s, a);
    hide Step, NextStates, NextEvents, LastConnections;
    if a.Advance? && a.task < |s.tasks| {
      NextConnections(s, a.task, s.tasks[a.task]);
    }
  }

  lemma StepMap(s: Session, a: Action)
    ensures Step(s, a).states == if a.Advance? && a.task < |s.tasks| then NextStates(s, s.tasks[a.task]) else s.states
  {
    hide NextTask, NextStates, NextEvents;
  }

  // At every moment of every run the connection count last shown is the number
  // of requests that have started and were not ended by Completed or Aborted.
  lemma {:induction false} ConnectionsShown(total: u64, entryType: string, acts: seq<Action>)
    requires DistinctKeys(Run(Init(total, entryType), acts))
    ensures var s := Run(Init(total, entryType), acts);
            LastConnections(s.events) == |s.states| == Tally(total, Live, s.tasks)
  {
    hide Step, TasksOk, HistoriesOk, AllOwned, Tally, LastConnections;
    if acts == [] {
      NoConnections(total, entryType);
    } else {
      var n := |acts| - 1;
      var before := Run(Init(total, entryType), acts[..n]);
      StepKeys(before, acts[n]);
      assert DistinctKeys(before);
      Conservation(total, entryType, acts[..n]);
      Histories(total, entryType, acts[..n]);
      MapOwned(total, entryType, acts[..n]);
      ConnectionsShown(total, entryType, acts[..n]);
      StepLive(before, acts[n]);
      StepConnections(before, acts[n]);
    }
  }

  lemma NoConnections(total: u64, entryType: string)
    ensures var s := Init(total, entryType);
            LastConnections(s.events) == |s.states| == Tally(total, Live, s.tasks)
  {
  }

  // ------------------------------------------------------ progress over a run

  // The progress values of one request among the events, in order.
  function ShownBy(events: seq<Event>, i: nat): seq<u64> {
    if events == [] then [] else
    var n := |events| - 1;
    ShownBy(events[..n], i)
    + if events[n].ProgressShown? && events[n].task == i then [events[n].bytes] else []
  }

  lemma ShownBySnoc(events: seq<Event>, more: seq<Event>, i: nat)
    requires |more| <= 1
    ensures ShownBy(events + more, i) == ShownBy(events, i) + ShownBy(more, i)
  {
    if more == [] {
      assert events + more == events;
    } else {
      assert (events + more)[..|events|] == events && more[..0] == [];
    }
  }

  function SeenBy(s: Session, i: nat): seq<Update> {
    if i < |s.tasks| then s.tasks[i].seen else []
  }

  // An ended request has no entry, under distinct keys, so it shows nothing.
  lemma EndedHasNoEntry(s: Session, i: nat)
    requires AllOwned(s) && DistinctKeys(s) && i < |s.tasks| && !s.tasks[i].probe && !InMap(s.tasks[i])
    ensures s.tasks[i].key !in s.states
  {
    forall j | 0 <= j < |s.tasks| && InMap(s.tasks[j])
      ensures s.tasks[j].key != s.tasks[i].key
    {
      assert j != i;
    }
    assert !Owned(s, s.tasks[i].key);
  }

  // What a step adds to the progress of a request is what it adds to its trace.
  lemma StepShows(s: Session, a: Action, i: nat)
    requires TasksOk(s) && HistoriesOk(s) && AllOwned(s) && DistinctKeys(s)
    requires ShownBy(s.events, i) == ShownValues(s.total, s.entryType, SeenBy(s, i))
    ensures ShownBy(Step(s, a).events, i) == ShownValues(s.total, s.entryType, SeenBy(Step(s, a), i))
  {
    StepEvents(s, a);
    ShownBySnoc(s.events, Emitted(s, a), i);
    hide ShownValues, Transferred, Replay, Apply;
    if a.Advance? && a.task == i && i < |s.tasks| && s.tasks[i].pc.Modify? {
      OwnShows(s, i, a.recent);
    } else {
      OthersShowNothing(s, a, i);
      assert ShownBy(s.events, i) + [] == ShownBy(s.events, i);
    }
  }

  lemma OthersShowNothing(s: Session, a: Action, i: nat)
    requires !(a.Advance? && a.task == i && i < |s.tasks| && s.tasks[i].pc.Modify?)
    ensures ShownBy(Emitted(s, a), i) == [] && SeenBy(Step(s, a), i) == SeenBy(s, i)
  {
    hide NextPc, Transferred, Apply;
    TasksGrow(s, a);
    StepEvents(s, a);
    if i < |Step(s, a).tasks| {
      StepTask(s, a, i);
    }
  }

  lemma OwnShows(s: Session, i: nat, recent: bool)
    requires TasksOk(s) && HistoriesOk(s) && AllOwned(s) && DistinctKeys(s)
    requires i < |s.tasks| && s.tasks[i].pc.Modify?
    ensures ShownValues(s.total, s.entryType, SeenBy(AdvanceTask(s, i, recent), i))
         == ShownValues(s.total, s.entryType, s.tasks[i].seen) + ShownBy(NextEvents(s, i, s.tasks[i]), i)
  {
    hide Transferred, Replay, Apply, NextPc, ShownValues;
    var t := s.tasks[i];
    assert TaskOk(s.completed, s.startedFlag, s.total, t);
    ShownSnoc(s.total, s.entryType, t.seen, t.pc.u);
    assert forall e: Event :: ShownBy([e][..0], i) == [];
    if t.ended {
      EndedHasNoEntry(s, i);
    } else if t.pc.u.Progress? {
      ProgressIsReplay(s, i);
    }
  }

  lemma {:induction false} ProgressOfRun(total: u64, entryType: string, acts: seq<Action>, i: nat)
    requires DistinctKeys(Run(Init(total, entryType), acts))
    ensures var s := Run(Init(total, entryType), acts);
            ShownBy(s.events, i) == ShownValues(total, entryType, SeenBy(s, i))
  {
    hide Step, TasksOk, HistoriesOk, AllOwned, ShownValues;
    if acts == [] {
      NothingShown(total, entryType, i);
    } else {
      var n := |acts| - 1;
      var before := Run(Init(total, entryType), acts[..n]);
      StepKeys(before, acts[n]);
      assert DistinctKeys(before);
      Conservation(total, entryType, acts[..n]);
      Histories(total, entryType, acts[..n]);
      MapOwned(total, entryType, acts[..n]);
      ProgressOfRun(total, entryType, acts[..n], i);
      StepShows(before, acts[n], i);
    }
  }

  lemma NothingShown(total: u64, entryType: string, i: nat)
    ensures var s := Init(total, entryType);
            ShownBy(s.events, i) == ShownValues(total, entryType, SeenBy(s, i))
  {
  }

  // Over every run, in whatever interleaving, the progress events of a request
  // never exceed the total, and never go back if and only if none of its updates
  // sets them back.
  lemma ProgressNeverGoesBack(total: u64, entryType: string, acts: seq<Action>, i: nat)
    requires DistinctKeys(Run(Init(total, entryType), acts))
    ensures var s := Run(Init(total, entryType), acts);
            && Within(ShownBy(s.events, i), total)
            && (Rising(ShownBy(s.events, i)) <==> !SetBack(total, entryType, SeenBy(s, i)))
            && (total == 0 || !Restarts(entryType, SeenBy(s, i)) ==> Rising(ShownBy(s.events, i)))
            && (MetadataFirst(entryType, SeenBy(s, i)) ==> Rising(ShownBy(s.events, i)))
  {
    ProgressOfRun(total, entryType, acts, i);
    hide Run, Restarts, SetBack, MetadataFirst, ShownValues;
    var trace := SeenBy(Run(Init(total, entryType), acts), i);
    ShownForTrace(total, entryType, trace);
    if MetadataFirst(entryType, trace) {
      MetadataFirstNeverCuts(entryType, trace);
    }
  }

  // ---------------------------------------------------------- what emission means

  // A transfer-completed from a request task always stands for a request that
  // ended with Completed, never for one that took the tail branch: the tail
  // branch finds its own entry still in the map. (An aborted request is ended
  // too, but is never judged.) The bytes it was judged by are its payload blobs
  // and pass the 95% test.
  lemma {:induction false} EmissionMeansDelivery(total: u64, entryType: string, acts: seq<Action>, i: nat)
    requires DistinctKeys(Run(Init(total, entryType), acts))
    requires TransferCompleted(Some(i)) in Run(Init(total, entryType), acts).events
    ensures var s := Run(Init(total, entryType), acts);
            && i < |s.tasks| && s.tasks[i].ended && s.tasks[i].seen != []
            && s.tasks[i].judged == Some(Min(total, Counted(entryType, s.tasks[i].seen)))
            && PayloadComplete(Min(total, Counted(entryType, s.tasks[i].seen)), total)
  {
    Histories(total, entryType, acts);
    Emissions(total, entryType, acts);
    Conservation(total, entryType, acts);
    EmitterEnded(total, entryType, acts, i);
    hide Run;
    var s := Run(Init(total, entryType), acts);
    assert SourceOk(s, TransferCompleted(Some(i)));
    assert HistoryOk(s, s.tasks[i]);
  }

  lemma {:induction false} EmitterEnded(total: u64, entryType: string, acts: seq<Action>, i: nat)
    requires DistinctKeys(Run(Init(total, entryType), acts))
    requires TransferCompleted(Some(i)) in Run(Init(total, entryType), acts).events
    ensures var s := Run(Init(total, entryType), acts);
            i < |s.tasks| && s.tasks[i].ended && s.tasks[i].resolved
  {
    var n := |acts| - 1;
    var before := Run(Init(total, entryType), acts[..n]);
    StepKeys(before, acts[n]);
    assert DistinctKeys(before);
    Conservation(total, entryType, acts[..n]);
    StepEvents(before, acts[n]);
    hide Step, TaskOk, HistoryOk, Emitted;
    if TransferCompleted(Some(i)) in before.events {
      EmitterEnded(total, entryType, acts[..n], i);
      ResolvedIsFrozen(before, acts[n], i);
    } else {
      EmittedCompletion(before, acts[n], TransferCompleted(Some(i)));
      Histories(total, entryType, acts[..n]);
      SwapperEnded(before, i);
      ResolvedIsFrozen(before, acts[n], i);
    }
  }

  lemma SwapperEnded(s: Session, i: nat)
    requires i < |s.tasks| && TasksOk(s) && HistoriesOk(s) && s.tasks[i].pc.SwapCompleted?
    ensures s.tasks[i].ended && s.tasks[i].resolved
  {
    assert TaskOk(s.completed, s.startedFlag, s.total, s.tasks[i]);
    assert HistoryOk(s, s.tasks[i]);
  }

  // No request received by the earlier moment is open now.
  predicate NoneOpenSince(earlier: Session, now: Session) {
    |earlier.tasks| <= |now.tasks| && forall j :: 0 <= j < |earlier.tasks| ==> !Open(now.tasks[j])
  }

  lemma QuietNow(s: Session)
    requires Quiet(s)
    ensures NoneOpenSince(s, s)
  {
    forall j | 0 <= j < |s.tasks|
      ensures !Open(s.tasks[j])
    {
      if Open(s.tasks[j]) {
        OpenTaskCounts(s.tasks, j);
      }
    }
  }

  // A resolved request stays resolved.
  lemma StepNoneOpen(earlier: Session, s: Session, a: Action)
    requires NoneOpenSince(earlier, s)
    ensures NoneOpenSince(earlier, Step(s, a))
  {
    TasksGrow(s, a);
    var s' := Step(s, a);
    forall j | 0 <= j < |earlier.tasks|
      ensures j < |s'.tasks| && !Open(s'.tasks[j])
    {
      assert !Open(s.tasks[j]);
      StepTask(s, a, j);
      hide Step;
    }
  }

  lemma {:induction false} QuietSince(total: u64, entryType: string, acts: seq<Action>, n: nat)
    requires n <= |acts| && Quiet(Run(Init(total, entryType), acts[..n]))
    ensures NoneOpenSince(Run(Init(total, entryType), acts[..n]), Run(Init(total, entryType), acts))
  {
    hide Step, Quiet, NoneOpenSince;
    if n < |acts| {
      var m := |acts| - 1;
      assert acts[..m][..n] == acts[..n];
      QuietSince(total, entryType, acts[..m], n);
      StepNoneOpen(Run(Init(total, entryType), acts[..n]), Run(Init(total, entryType), acts[..m]), acts[m]);
    } else {
      assert acts[..n] == acts;
      QuietNow(Run(Init(total, entryType), acts));
    }
  }

  // Behind every emission from a task, made by the step after the first m, lies
  // the whole trail of its checks; and whatever is unresolved at that moment was
  // received after the second of them.
  lemma {:induction false} EmissionTrail(total: u64, entryType: string, acts: seq<Action>, i: nat)
    returns (k: seq<nat>, m: nat)
    requires TransferCompleted(Some(i)) in Run(Init(total, entryType), acts).events
    ensures Trail(total, entryType, acts, i, SwapCompleted(false), k)
    ensures k[3] < m < |acts| && TransferCompleted(Some(i)) in Emitted(Run(Init(total, entryType), acts[..m]), acts[m])
    ensures NoneOpenSince(Run(Init(total, entryType), acts[..k[1]]), Run(Init(total, entryType), acts[..m]))
  {
    var n := |acts| - 1;
    var before := Run(Init(total, entryType), acts[..n]);
    Conservation(total, entryType, acts[..n]);
    StepEvents(before, acts[n]);
    hide Step, TaskOk, Emitted, Run, NoneOpenSince, Quiet;
    if TransferCompleted(Some(i)) in before.events {
      k, m := EmissionTrail(total, entryType, acts[..n], i);
      assert acts[..n][..m] == acts[..m] && acts[..n][..k[1]] == acts[..k[1]];
    } else {
      EmittedCompletion(before, acts[n], TransferCompleted(Some(i)));
      k := PassedChecks(total, entryType, acts[..n], i);
      m := n;
      QuietSince(total, entryType, acts[..n], k[1]);
      assert acts[..n][..k[1]] == acts[..k[1]];
    }
    TrailLonger(total, entryType, acts, n, i, SwapCompleted(false), k);
  }

  // transfer-failed, too, is emitted only when nothing is left unresolved.
  lemma FailureIsQuiet(s: Session, a: Action, i: nat)
    requires TasksOk(s) && Conserved(s) && TransferFailed(i) in Emitted(s, a)
    ensures Quiet(s) && i < |s.tasks| && s.tasks[i].ended
  {
    hide NextStates;
    assert TaskOk(s.completed, s.startedFlag, s.total, s.tasks[i]);
    StaleReadIsQuiet(s, i);
  }

  // The tail branch never gets as far as emitting.
  lemma TailNeverEmits(total: u64, entryType: string, acts: seq<Action>, i: nat)
    requires DistinctKeys(Run(Init(total, entryType), acts)) && i < |Run(Init(total, entryType), acts).tasks|
    ensures var pc := Run(Init(total, entryType), acts).tasks[i].pc; !(pc.SwapCompleted? && pc.tail)
  {
    Histories(total, entryType, acts);
    hide Run;
    var s := Run(Init(total, entryType), acts);
    assert HistoryOk(s, s.tasks[i]);
  }

  // Undisturbed steps of one task, the last request being long past.
  function Alone(s: Session, i: nat, n: nat): Session
    requires i < |s.tasks|
    decreases n
  {
    if n == 0 then s else Alone(AdvanceTask(s, i, false), i, n - 1)
  }

  lemma {:induction false} AloneMore(s: Session, i: nat, m: nat, n: nat)
    requires i < |s.tasks|
    ensures i < |Alone(s, i, m).tasks| && Alone(s, i, m + n) == Alone(Alone(s, i, m), i, n)
    decreases m
  {
    hide NextTask, NextStates, NextEvents;
    if m > 0 {
      AloneMore(AdvanceTask(s, i, false), i, m - 1, n);
    }
  }

  // The path from the counter to the emission when all counters stand at n.
  function Path(k: nat, n: nat): Pc
    requires k <= 5
  {
    if k == 0 then LoadActive(false, n)
    else if k == 1 then Sleep(false, n)
    else if k == 2 then LoadAgain(false, n, n)
    else if k == 3 then LookAtStates(false, true)
    else if k == 4 then LookAtClock(false, true)
    else SwapCompleted(false)
  }

  predicate Calm(s: Session, i: nat, k: nat)
    requires k <= 5
  {
    && i < |s.tasks| && s.tasks[i].pc == Path(k, s.completed)
    && |s.states| == 0 && s.active == s.completed >= 1
  }

  lemma CalmStep(s: Session, i: nat, k: nat)
    requires k < 5 && Calm(s, i, k)
    ensures Calm(AdvanceTask(s, i, false), i, k + 1)
  {
  }

  lemma {:induction false} CalmEmits(s: Session, i: nat, k: nat)
    requires k <= 5 && Calm(s, i, k)
    ensures Alone(s, i, 6 - k).completedFlag
    decreases 5 - k
  {
    hide NextPc, NextStates, NextEvents;
    if k < 5 {
      CalmStep(s, i, k);
      CalmEmits(AdvanceTask(s, i, false), i, k + 1);
    } else {
      assert Alone(s, i, 1) == Alone(AdvanceTask(s, i, false), i, 0);
    }
  }

  // From the settled bytes to the verdict; the transfer state is gone.
  lemma Judged(s: Session, i: nat)
    requires i < |s.tasks| && s.tasks[i].pc.Account? && s.states.Keys == {s.tasks[i].key}
    ensures var r := Alone(s, i, 2);
            && i < |r.tasks| && r.tasks[i].pc == Verdict(s, SettledBytes(s, s.tasks[i].key), false) && |r.states| == 0
            && r.active == s.active && r.completed == s.completed && r.completedFlag == s.completedFlag
  {
    hide PayloadComplete, Settle, NextEvents;
    var s1 := AdvanceTask(s, i, false);
    var s2 := AdvanceTask(s1, i, false);
    assert s1.states.Keys == {s.tasks[i].key};
    assert s2.states.Keys == {} && s2.states == map[];
    assert Alone(s, i, 2) == Alone(s1, i, 1) == Alone(s2, i, 0);
  }

  // The last open request decides: when it completes with no other entry in the
  // map and runs on undisturbed, transfer-completed has been emitted if its
  // bytes pass the 95% test; if they do not, it is taken out of the count and
  // nothing is emitted.
  lemma LastRequestDecides(s: Session, i: nat)
    requires Conserved(s) && Unresolved(s.tasks) == 1
    requires i < |s.tasks| && s.tasks[i].pc.Account? && s.states.Keys == {s.tasks[i].key}
    ensures PayloadComplete(SettledBytes(s, s.tasks[i].key), s.total) ==> Alone(s, i, 9).completedFlag
    ensures !PayloadComplete(SettledBytes(s, s.tasks[i].key), s.total) ==>
              Alone(s, i, 3).completedFlag == s.completedFlag && Alone(s, i, 3).active == s.active - 1 == s.completed
  {
    hide Alone, NextStates, NextEvents, Unresolved;
    Judged(s, i);
    var r := Alone(s, i, 2);
    AloneOne(r, i);
    AloneMore(s, i, 2, 1);
    if PayloadComplete(SettledBytes(s, s.tasks[i].key), s.total) {
      AloneMore(s, i, 3, 6);
      SameStates(r, i);
      CalmEmits(AdvanceTask(r, i, false), i, 0);
    }
  }

  lemma AloneOne(s: Session, i: nat)
    requires i < |s.tasks|
    ensures Alone(s, i, 1) == AdvanceTask(s, i, false)
  {
    assert Alone(AdvanceTask(s, i, false), i, 0) == AdvanceTask(s, i, false);
  }

  lemma SameStates(s: Session, i: nat)
    requires i < |s.tasks| && s.tasks[i].pc.Increment?
    ensures AdvanceTask(s, i, false).states == s.states
  {
  }

  // When the session ends it reports completion itself exactly when no task
  // did, some request was completed or aborted, and every payload request got
  // as far as starting.
  lemma FinalVerdict(total: u64, entryType: string, acts: seq<Action>)
    requires Run(Init(total, entryType), acts).main.Loaded?
    ensures var s := Run(Init(total, entryType), acts);
            Emitted(s, Conclude) == [TransferCompleted(None)] <==>
              !s.completedFlag && s.completed >= 1
              && forall i :: 0 <= i < |s.tasks| && !s.tasks[i].probe ==> s.tasks[i].started
  {
    Conservation(total, entryType, acts);
    hide Run;
    var s := Run(Init(total, entryType), acts);
    forall i | 0 <= i < |s.tasks|
      ensures Open(s.tasks[i]) <==> !s.tasks[i].probe && !s.tasks[i].started
    {
      assert TaskOk(s.completed, s.startedFlag, s.total, s.tasks[i]);
    }
    if Unresolved(s.tasks) >= 1 {
      var i := OpenTaskExists(s.tasks);
    } else {
      forall i | 0 <= i < |s.tasks|
        ensures !Open(s.tasks[i])
      {
        if Open(s.tasks[i]) {
          OpenTaskCounts(s.tasks, i);
        }
      }
    }
  }

  predicate Dead(t: Task) {
    t.pc.Done? && !t.probe && !t.started
  }

  lemma DeadStays(s: Session, a: Action, i: nat)
    requires i < |s.tasks| && Dead(s.tasks[i])
    ensures i < |Step(s, a).tasks| && Step(s, a).tasks[i] == s.tasks[i]
  {
    TasksGrow(s, a);
    StepTask(s, a, i);
    hide Step;
  }

  lemma DeadBlocks(s: Session, i: nat)
    requires TasksOk(s) && Conserved(s) && i < |s.tasks| && Dead(s.tasks[i])
    ensures s.completed < s.active
  {
    assert TaskOk(s.completed, s.startedFlag, s.total, s.tasks[i]);
    OpenTaskCounts(s.tasks, i);
  }

  // A payload request whose channel ends before its first update is never
  // resolved: from then on the counters stay apart for good.
  lemma {:induction false} UnstartedRequestBlocks(total: u64, entryType: string, acts: seq<Action>, k: nat, i: nat)
    requires k <= |acts| && i < |Run(Init(total, entryType), acts[..k]).tasks|
    requires Dead(Run(Init(total, entryType), acts[..k]).tasks[i])
    ensures var s := Run(Init(total, entryType), acts);
            i < |s.tasks| && Dead(s.tasks[i]) && s.completed < s.active
    decreases |acts|
  {
    hide Step, Dead, TasksOk, Conserved;
    Conservation(total, entryType, acts);
    if k == |acts| {
      assert acts[..k] == acts;
    } else {
      var n := |acts| - 1;
      assert acts[..n][..k] == acts[..k];
      UnstartedRequestBlocks(total, entryType, acts[..n], k, i);
      DeadStays(Run(Init(total, entryType), acts[..n]), acts[n], i);
    }
    DeadBlocks(Run(Init(total, entryType), acts), i);
  }
}
