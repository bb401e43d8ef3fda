// A share session that serves one payload request and nothing else, from the
// request to the end of the session (engine/protocol/src/send.rs): everything
// it emits, as a function of the updates the request sends.

module SoloSession {
  import opened ByteAccounting
  import opened Numbers
  import opened ShareSession
  import opened Wrappers

  // -------------------------------------------------------- one task at a time

  // The session with task i as given.
  function At(s: Session, i: nat, t: Task): Session
    requires i < |s.tasks|
  {
    s.(tasks := s.tasks[i := t])
  }

  // What a step of a task does to everything but itself.
  function Moved(s: Session, i: nat, t: Task): Session {
    s.(states := NextStates(s, t),
       events := s.events + NextEvents(s, i, t),
       active := if t.pc.Decrement? then FetchSub(s.active) else s.active,
       completed := if t.pc.Increment? || t.pc.AbortIncrement? then s.completed + 1 else s.completed,
       startedFlag := s.startedFlag || t.pc.Announce?,
       completedFlag := s.completedFlag || t.pc.SwapCompleted?)
  }

  // A task does not look at the others.
  lemma TaskAt(s: Session, i: nat, t: Task)
    requires i < |s.tasks|
    ensures NextTask(At(s, i, t), t, false) == NextTask(s, t, false)
  {
    hide PayloadComplete, Settle;
  }

  lemma StatesAt(s: Session, i: nat, t: Task)
    requires i < |s.tasks|
    ensures NextStates(At(s, i, t), t) == NextStates(s, t)
  {
    hide Apply, Settle, Fresh;
  }

  lemma EventsAt(s: Session, i: nat, t: Task)
    requires i < |s.tasks|
    ensures NextEvents(At(s, i, t), i, t) == NextEvents(s, i, t)
  {
    StatesAt(s, i, t);
    hide Transferred, Min, NextStates;
  }

  lemma AdvanceAt(s: Session, i: nat, t: Task)
    requires i < |s.tasks|
    ensures AdvanceTask(At(s, i, t), i, false) == At(Moved(s, i, t), i, NextTask(s, t, false))
  {
    TaskAt(s, i, t);
    StatesAt(s, i, t);
    EventsAt(s, i, t);
    hide NextTask, NextStates, NextEvents;
    assert s.tasks[i := t][i := NextTask(s, t, false)] == s.tasks[i := NextTask(s, t, false)];
  }

  lemma AloneAt(s: Session, i: nat, t: Task, n: nat)
    requires i < |s.tasks| && n > 0
    ensures Alone(At(s, i, t), i, n) == Alone(At(Moved(s, i, t), i, NextTask(s, t, false)), i, n - 1)
  {
    AdvanceAt(s, i, t);
    hide AdvanceTask, Moved, NextTask, At;
  }

  // A task that waits, or is done, stays as it is.
  lemma {:induction false} AloneRests(s: Session, i: nat, n: nat)
    requires i < |s.tasks| && (s.tasks[i].pc.Idle? || s.tasks[i].pc.Done?)
    ensures Alone(s, i, n) == s
    decreases n
  {
    if n > 0 {
      RestingStep(s, i);
      AloneRests(s, i, n - 1);
    }
  }

  lemma RestingStep(s: Session, i: nat)
    requires i < |s.tasks| && (s.tasks[i].pc.Idle? || s.tasks[i].pc.Done?)
    ensures AdvanceTask(s, i, false) == s
  {
    assert s.tasks[i := s.tasks[i]] == s.tasks;
    assert s.events + [] == s.events;
  }

  // --------------------------------------------------------------- single steps

  // Task i at t, with n steps to go, in session s.
  function Going(s: Session, i: nat, t: Task, n: nat): Session
    requires i < |s.tasks|
  {
    Alone(At(s, i, t), i, n)
  }

  lemma GoesOn(s: Session, i: nat, t: Task, n: nat)
    requires i < |s.tasks| && n > 0
    ensures Going(s, i, t, n) == Going(Moved(s, i, t), i, NextTask(s, t, false), n - 1)
  {
    AloneAt(s, i, t, n);
    hide Alone, At, Moved, NextTask;
  }

  lemma Rests(s: Session, i: nat, t: Task, n: nat)
    requires i < |s.tasks| && (t.pc.Idle? || t.pc.Done?)
    ensures Going(s, i, t, n) == At(s, i, t)
  {
    AloneRests(At(s, i, t), i, n);
  }

  lemma Inserts(s: Session, i: nat, t: Task, n: nat)
    requires i < |s.tasks| && n > 0 && t.pc.Insert?
    ensures var states := s.states[t.key := Fresh(s.total, t.pc.u)];
            Going(s, i, t, n) == Going(s.(states := states, events := s.events + [ActiveConnections(|states|)]), i,
                                       t.(pc := Announce(t.pc.u)), n - 1)
  {
    hide Going, Fresh;
    GoesOn(s, i, t, n);
  }

  lemma Announces(s: Session, i: nat, t: Task, n: nat)
    requires i < |s.tasks| && n > 0 && t.pc.Announce?
    ensures Going(s, i, t, n)
         == Going(s.(startedFlag := true, events := s.events + if s.startedFlag then [] else [TransferStarted]), i,
                  t.(pc := Modify(t.pc.u), started := true), n - 1)
  {
    hide Going;
    GoesOn(s, i, t, n);
  }

  function ShownEvent(i: nat, u: Update, st: TransferState): seq<Event> {
    if u.Progress? then [ProgressShown(i, Min(Transferred(st), st.total))] else []
  }

  lemma Modifies(s: Session, i: nat, t: Task, n: nat)
    requires i < |s.tasks| && n > 0 && t.pc.Modify? && t.key in s.states && !t.ended
    ensures var st := Apply(s.entryType, s.states[t.key], t.pc.u);
            Going(s, i, t, n)
              == Going(s.(states := s.states[t.key := st], events := s.events + ShownEvent(i, t.pc.u, st)), i,
                       t.(pc := Idle, seen := t.seen + [t.pc.u]), n - 1)
  {
    ApplyKeepsTotal(s.entryType, s.states[t.key], t.pc.u);
    hide Apply, Transferred, Min, Going;
    GoesOn(s, i, t, n);
  }

  lemma ModifiesNothing(s: Session, i: nat, t: Task, n: nat)
    requires i < |s.tasks| && n > 0 && t.pc.Modify? && t.key !in s.states && t.ended
    ensures Going(s, i, t, n) == Going(s, i, t.(pc := Idle), n - 1)
  {
    hide Going;
    GoesOn(s, i, t, n);
    assert s.events + [] == s.events;
  }

  lemma ApplyKeepsTotal(entryType: string, st: TransferState, u: Update)
    ensures Apply(entryType, st, u).total == st.total
  {
  }

  lemma Accounts(s: Session, i: nat, t: Task, n: nat)
    requires i < |s.tasks| && n > 0 && t.pc.Account? && t.key in s.states
    ensures var st := Settle(s.states[t.key]);
            Going(s, i, t, n)
              == Going(s.(states := s.states[t.key := st]), i, t.(pc := Remove(st.accounted)), n - 1)
  {
    hide Settle, Going;
    GoesOn(s, i, t, n);
    assert s.events + [] == s.events;
  }

  function VerdictPc(bytes: u64, total: u64, tail: bool): Pc {
    if PayloadComplete(bytes, total) then Increment(tail) else Decrement(tail)
  }

  lemma Removes(s: Session, i: nat, t: Task, n: nat)
    requires i < |s.tasks| && n > 0 && t.pc.Remove?
    ensures var states := s.states - {t.key};
            Going(s, i, t, n) == Going(s.(states := states, events := s.events + [ActiveConnections(|states|)]), i,
              t.(pc := VerdictPc(t.pc.bytes, s.total, false), ended := true, judged := Some(t.pc.bytes)), n - 1)
  {
    hide PayloadComplete, Going;
    GoesOn(s, i, t, n);
  }

  lemma AbortRemoves(s: Session, i: nat, t: Task, n: nat)
    requires i < |s.tasks| && n > 0 && t.pc.AbortRemove?
    ensures var states := s.states - {t.key};
            Going(s, i, t, n) == Going(s.(states := states, events := s.events + [ActiveConnections(|states|)]), i,
                                       t.(pc := AbortIncrement, ended := true), n - 1)
  {
    hide Going;
    GoesOn(s, i, t, n);
  }

  lemma Decrements(s: Session, i: nat, t: Task, n: nat)
    requires i < |s.tasks| && n > 0 && t.pc.Decrement? && s.active > 0
    ensures Going(s, i, t, n) == Going(s.(active := s.active - 1), i,
                                       t.(pc := if t.pc.tail then Done else Idle, resolved := true), n - 1)
  {
    hide Going;
    GoesOn(s, i, t, n);
    assert s.events + [] == s.events;
  }

  lemma Increments(s: Session, i: nat, t: Task, n: nat)
    requires i < |s.tasks| && n > 0 && t.pc.Increment?
    ensures Going(s, i, t, n) == Going(s.(completed := s.completed + 1), i,
                                       t.(pc := LoadActive(t.pc.tail, s.completed + 1), resolved := true), n - 1)
  {
    hide Going;
    GoesOn(s, i, t, n);
    assert s.events + [] == s.events;
  }

  lemma AbortIncrements(s: Session, i: nat, t: Task, n: nat)
    requires i < |s.tasks| && n > 0 && t.pc.AbortIncrement?
    ensures Going(s, i, t, n) == Going(s.(completed := s.completed + 1), i,
                                       t.(pc := AbortLoad(s.completed + 1), resolved := true), n - 1)
  {
    hide Going;
    GoesOn(s, i, t, n);
    assert s.events + [] == s.events;
  }

  // The checks between the increment and the emission touch nothing.
  lemma Checking(s: Session, i: nat, t: Task, n: nat)
    requires t.pc.LoadActive? || t.pc.Sleep? || t.pc.LoadAgain? || t.pc.LookAtStates? || t.pc.LookAtClock?
    requires i < |s.tasks| && n > 0
    ensures Going(s, i, t, n) == Going(s, i, t.(pc := NextPc(s, t, false)), n - 1)
  {
    hide NextPc, Going;
    GoesOn(s, i, t, n);
    assert s.events + [] == s.events;
  }

  lemma Swaps(s: Session, i: nat, t: Task, n: nat)
    requires i < |s.tasks| && n > 0 && t.pc == SwapCompleted(false)
    ensures Going(s, i, t, n)
         == Going(s.(completedFlag := true,
                     events := s.events + if s.completedFlag then [] else [TransferCompleted(Some(i))]), i,
                  t.(pc := Idle), n - 1)
  {
    hide Going;
    GoesOn(s, i, t, n);
  }

  lemma AbortLoads(s: Session, i: nat, t: Task, n: nat)
    requires i < |s.tasks| && n > 0 && t.pc.AbortLoad? && t.pc.count >= s.active
    ensures Going(s, i, t, n) == Going(s.(events := s.events + [TransferFailed(i)]), i, t.(pc := Idle), n - 1)
  {
    hide Going;
    GoesOn(s, i, t, n);
  }

  lemma ReadsTail(s: Session, i: nat, t: Task, n: nat)
    requires i < |s.tasks| && n > 0 && t.pc.ReadTail? && t.key in s.states
    ensures var bytes := s.states[t.key].accounted;
            Going(s, i, t, n)
              == Going(s, i, t.(pc := VerdictPc(bytes, s.total, true), judged := Some(bytes)), n - 1)
  {
    hide PayloadComplete, Going;
    GoesOn(s, i, t, n);
    assert s.events + [] == s.events;
  }

  // ---------------------------------------------------------- serving an update

  // An update reaches the task, which then takes n steps; nine are always enough
  // to make it wait again.
  function Serve(s: Session, i: nat, u: Update, n: nat): Session
    requires i < |s.tasks|
  {
    Alone(Step(s, Deliver(i, u)), i, n)
  }

  predicate Waiting(s: Session, i: nat) {
    i < |s.tasks| && s.tasks[i].pc.Idle? && !s.tasks[i].probe
  }

  lemma DeliverAt(s: Session, i: nat, u: Update, n: nat)
    requires Waiting(s, i)
    ensures i < |s.tasks| && s.tasks[i].pc == Idle && Serve(s, i, u, n) == Going(s, i, OnDeliver(s.tasks[i], u), n)
  {
    hide Alone, OnDeliver;
  }

  // Where an update sends a waiting task.
  lemma Delivered(s: Session, i: nat, u: Update, n: nat, pc: Pc)
    requires Waiting(s, i) && OnDeliver(s.tasks[i], u) == s.tasks[i].(pc := pc)
    ensures i < |s.tasks| && s.tasks[i].pc == Idle && Serve(s, i, u, n) == Going(s, i, s.tasks[i].(pc := pc), n)
  {
    DeliverAt(s, i, u, n);
    hide *;
  }

  // The entry is inserted and the start announced.
  lemma Registers(s: Session, i: nat, t: Task, n: nat)
    requires i < |s.tasks| && n > 1 && t.pc.Insert?
    ensures var states := s.states[t.key := Fresh(s.total, t.pc.u)];
            Going(s, i, t, n)
              == Going(s.(states := states, startedFlag := true,
                          events := s.events + [ActiveConnections(|states|)]
                                    + if s.startedFlag then [] else [TransferStarted]), i,
                       t.(pc := Modify(t.pc.u), started := true), n - 2)
  {
    hide *;
    Inserts(s, i, t, n);
    var states := s.states[t.key := Fresh(s.total, t.pc.u)];
    Announces(s.(states := states, events := s.events + [ActiveConnections(|states|)]), i,
              t.(pc := Announce(t.pc.u)), n - 1);
  }

  // What the session is after the first update of a request.
  function Begun(s: Session, i: nat, u: Update, st: TransferState): Session
    requires i < |s.tasks|
  {
    var states := s.states[s.tasks[i].key := st];
    s.(states := states, startedFlag := true,
       events := s.events + [ActiveConnections(|states|)]
                 + (if s.startedFlag then [] else [TransferStarted]) + ShownEvent(i, u, st))
  }

  lemma RegisteredModifies(s: Session, i: nat, u: Update, n: nat)
    requires i < |s.tasks| && n > 2 && !s.tasks[i].ended && s.tasks[i].pc == Idle
    ensures var t, blank := s.tasks[i], Fresh(s.total, u);
            var states, st := s.states[t.key := blank], Apply(s.entryType, blank, u);
            Going(s.(states := states, startedFlag := true,
                     events := s.events + [ActiveConnections(|states|)]
                               + if s.startedFlag then [] else [TransferStarted]), i,
                  t.(pc := Modify(u), started := true), n)
              == At(Begun(s, i, u, st), i, t.(started := true, seen := t.seen + [u]))
  {
    hide Apply, Fresh, ShownEvent, Going, At;
    var t, blank := s.tasks[i], Fresh(s.total, u);
    var states, st := s.states[t.key := blank], Apply(s.entryType, blank, u);
    var s2 := s.(states := states, startedFlag := true,
                 events := s.events + [ActiveConnections(|states|)]
                           + if s.startedFlag then [] else [TransferStarted]);
    Modifies(s2, i, t.(pc := Modify(u), started := true), n);
    assert states[t.key := st] == s.states[t.key := st];
    MapUpdateSize(s.states, t.key, blank);
    MapUpdateSize(s.states, t.key, st);
    Rests(Begun(s, i, u, st), i, t.(started := true, seen := t.seen + [u]), n - 1);
  }

  // The first update of a request.
  lemma ServesFirst(s: Session, i: nat, u: Update, n: nat)
    requires n >= 9 && Waiting(s, i) && !s.tasks[i].started && !s.tasks[i].ended && Starts(u)
    ensures var t, st := s.tasks[i], Apply(s.entryType, Fresh(s.total, u), u);
            Serve(s, i, u, n) == At(Begun(s, i, u, st), i, t.(started := true, seen := t.seen + [u]))
  {
    var t := s.tasks[i];
    Delivered(s, i, u, n, Insert(u));
    hide *;
    Registers(s, i, t.(pc := Insert(u)), n);
    RegisteredModifies(s, i, u, n - 2);
  }

  // A later one, while the request is in transfer.
  lemma ServesNext(s: Session, i: nat, u: Update, n: nat)
    requires n >= 9 && Waiting(s, i) && s.tasks[i].started && !s.tasks[i].ended
    requires Starts(u) && s.tasks[i].key in s.states
    ensures var t := s.tasks[i];
            var st := Apply(s.entryType, s.states[t.key], u);
            Serve(s, i, u, n) == At(s.(states := s.states[t.key := st], events := s.events + ShownEvent(i, u, st)),
                                    i, t.(seen := t.seen + [u]))
  {
    var t := s.tasks[i];
    Delivered(s, i, u, n, Modify(u));
    hide *;
    Modifies(s, i, t.(pc := Modify(u)), n);
    var st := Apply(s.entryType, s.states[t.key], u);
    Rests(s.(states := s.states[t.key := st], events := s.events + ShownEvent(i, u, st)), i,
          t.(seen := t.seen + [u]), n - 1);
  }

  // One that changes nothing: an end before the start, or anything after the end.
  lemma ServesNothing(s: Session, i: nat, u: Update, n: nat)
    requires n >= 9 && Waiting(s, i)
    requires var t := s.tasks[i];
             (!t.started && !t.ended && !Starts(u)) || (t.started && t.ended && t.key !in s.states)
    ensures Serve(s, i, u, n) == s
  {
    var t := s.tasks[i];
    assert At(s, i, t) == s by {
      assert s.tasks[i := t] == s.tasks;
    }
    if Starts(u) {
      Delivered(s, i, u, n, Modify(u));
      hide *;
      ModifiesNothing(s, i, t.(pc := Modify(u)), n);
      Rests(s, i, t, n - 1);
    } else {
      Delivered(s, i, u, n, Idle);
      hide *;
      Rests(s, i, t, n);
    }
  }

  // The only request still open, in transfer and alone in the map.
  predicate LastOpen(s: Session, i: nat) {
    && Waiting(s, i) && s.tasks[i].started && !s.tasks[i].ended && !s.tasks[i].resolved
    && s.states.Keys == {s.tasks[i].key} && s.active == s.completed + 1
  }

  lemma EmptyAfter(m: map<Key, TransferState>, k: Key, v: TransferState)
    requires m.Keys == {k}
    ensures m - {k} == map[] && m[k := v] - {k} == map[]
  {
    assert (m - {k}).Keys == {} && (m[k := v] - {k}).Keys == {};
  }

  // What Completed judges by.
  function Bytes(s: Session, i: nat): u64
    requires i < |s.tasks| && s.tasks[i].key in s.states
  {
    Settle(s.states[s.tasks[i].key]).accounted
  }

  // From the settled bytes to the verdict.
  lemma Judges(s: Session, i: nat, n: nat)
    requires n >= 9 && LastOpen(s, i)
    ensures var t, bytes := s.tasks[i], Bytes(s, i);
            Serve(s, i, Completed, n)
              == Going(s.(states := map[], events := s.events + [ActiveConnections(0)]), i,
                       t.(pc := VerdictPc(bytes, s.total, false), ended := true, judged := Some(bytes)), n - 2)
  {
    var t := s.tasks[i];
    Delivered(s, i, Completed, n, Account);
    assert Bytes(s, i) == Settle(s.states[t.key]).accounted;
    hide *;
    Accounts(s, i, t.(pc := Account), n);
    var st := Settle(s.states[t.key]);
    Removes(s.(states := s.states[t.key := st]), i, t.(pc := Remove(st.accounted)), n - 1);
    EmptyAfter(s.states, t.key, st);
  }

  // All five checks pass when nothing else is going on.
  lemma AllQuiet(s: Session, i: nat, t: Task, n: nat)
    requires n >= 5 && i < |s.tasks| && s.active == s.completed >= 1 && s.states == map[]
    ensures Going(s, i, t.(pc := LoadActive(false, s.completed)), n)
         == Going(s, i, t.(pc := SwapCompleted(false)), n - 5)
  {
    var c := s.completed;
    var t1, t2, t3 := t.(pc := LoadActive(false, c)), t.(pc := Sleep(false, c)), t.(pc := LoadAgain(false, c, c));
    var t4, t5 := t.(pc := LookAtStates(false, true)), t.(pc := LookAtClock(false, true));
    assert NextPc(s, t1, false) == t2.pc && NextPc(s, t2, false) == t3.pc && NextPc(s, t3, false) == t4.pc;
    assert NextPc(s, t4, false) == t5.pc && NextPc(s, t5, false) == SwapCompleted(false);
    hide *;
    Checking(s, i, t1, n);
    Checking(s, i, t2, n - 1);
    Checking(s, i, t3, n - 2);
    Checking(s, i, t4, n - 3);
    Checking(s, i, t5, n - 4);
  }

  lemma Emits(s: Session, i: nat, t: Task, n: nat)
    requires n >= 6 && i < |s.tasks| && s.active == s.completed >= 1 && s.states == map[] && t.pc.Idle?
    ensures Going(s, i, t.(pc := LoadActive(false, s.completed)), n)
         == At(s.(completedFlag := true,
                  events := s.events + if s.completedFlag then [] else [TransferCompleted(Some(i))]), i, t)
  {
    AllQuiet(s, i, t, n);
    hide *;
    Swaps(s, i, t.(pc := SwapCompleted(false)), n - 5);
    Rests(s.(completedFlag := true,
             events := s.events + if s.completedFlag then [] else [TransferCompleted(Some(i))]), i, t, n - 6);
  }

  // It completes with enough bytes: transfer-completed, unless already emitted.
  lemma ServesCompletion(s: Session, i: nat, n: nat)
    requires n >= 9 && LastOpen(s, i) && PayloadComplete(Bytes(s, i), s.total)
    ensures Serve(s, i, Completed, n) == At(s.(
              states := map[], completed := s.completed + 1, completedFlag := true,
              events := s.events + [ActiveConnections(0)]
                        + if s.completedFlag then [] else [TransferCompleted(Some(i))]),
              i, s.tasks[i].(ended := true, resolved := true, judged := Some(Bytes(s, i))))
  {
    Judges(s, i, n);
    var t, bytes := s.tasks[i], Bytes(s, i);
    assert t.pc == Idle && VerdictPc(bytes, s.total, false) == Increment(false);
    hide *;
    var s1 := s.(states := map[], events := s.events + [ActiveConnections(0)]);
    var t1 := t.(ended := true, judged := Some(bytes));
    Increments(s1, i, t1.(pc := Increment(false)), n - 2);
    var s2, t2 := s1.(completed := s.completed + 1), t1.(resolved := true);
    Emits(s2, i, t2, n - 3);
  }

  // It completes with too few bytes: it leaves the count and nothing is emitted.
  lemma ServesShortage(s: Session, i: nat, n: nat)
    requires n >= 9 && LastOpen(s, i) && !PayloadComplete(Bytes(s, i), s.total)
    ensures Serve(s, i, Completed, n) == At(s.(
              states := map[], active := s.active - 1, events := s.events + [ActiveConnections(0)]),
              i, s.tasks[i].(ended := true, resolved := true, judged := Some(Bytes(s, i))))
  {
    Judges(s, i, n);
    var t, bytes := s.tasks[i], Bytes(s, i);
    assert t.pc == Idle && VerdictPc(bytes, s.total, false) == Decrement(false);
    hide *;
    var s1 := s.(states := map[], events := s.events + [ActiveConnections(0)]);
    var t1 := t.(ended := true, judged := Some(bytes));
    Decrements(s1, i, t1.(pc := Decrement(false)), n - 2);
    Rests(s1.(active := s.active - 1), i, t1.(resolved := true), n - 3);
  }

  // It is aborted: it counts as completed, and transfer-failed is emitted.
  lemma ServesAbort(s: Session, i: nat, n: nat)
    requires n >= 9 && LastOpen(s, i)
    ensures Serve(s, i, Aborted, n) == At(s.(
              states := map[], completed := s.completed + 1,
              events := s.events + [ActiveConnections(0)] + [TransferFailed(i)]),
              i, s.tasks[i].(ended := true, resolved := true))
  {
    var t := s.tasks[i];
    Delivered(s, i, Aborted, n, AbortRemove);
    hide *;
    AbortRemoves(s, i, t.(pc := AbortRemove), n);
    EmptyAfter(s.states, t.key, s.states[t.key]);
    var s1, t1 := s.(states := map[], events := s.events + [ActiveConnections(0)]), t.(ended := true);
    AbortIncrements(s1, i, t1.(pc := AbortIncrement), n - 1);
    var s2, t2 := s1.(completed := s.completed + 1), t1.(resolved := true);
    AbortLoads(s2, i, t2.(pc := AbortLoad(s.completed + 1)), n - 2);
    Rests(s2.(events := s2.events + [TransferFailed(i)]), i, t2, n - 3);
  }

  // ------------------------------------------------------------ the whole request

  function ShownEvents(values: seq<u64>): seq<Event> {
    if values == [] then []
    else ShownEvents(values[..|values| - 1]) + [ProgressShown(0, values[|values| - 1])]
  }

  // How the request stands after its updates: where it started and ended, and
  // the updates between.
  datatype Request = Request(started: bool, last: Option<Update>, trace: seq<Update>)

  function Stand(updates: seq<Update>): Request {
    var b := FirstStart(updates, 0);
    var n := FirstEnd(updates, b);
    Request(b < |updates|, if n < |updates| then Some(updates[n]) else None, updates[b..n])
  }

  predicate Enough(total: u64, entryType: string, r: Request) {
    r.last == Some(Completed) && PayloadComplete(Min(total, Counted(entryType, r.trace)), total)
  }

  // Everything the session has emitted by then.
  function Story(total: u64, entryType: string, r: Request): seq<Event> {
    if !r.started then []
    else [ActiveConnections(1), TransferStarted] + ShownEvents(ShownValues(total, entryType, r.trace))
         + (if r.last.None? then [] else [ActiveConnections(0)])
         + (if Enough(total, entryType, r) then [TransferCompleted(Some(0))]
            else if r.last == Some(Aborted) then [TransferFailed(0)] else [])
  }

  // And all of its state: an abort counts as completed, a shortage does not count
  // at all.
  function Solo(total: u64, entryType: string, key: Key, r: Request): Session
    requires r.started ==> r.trace != []
  {
    var enough, ended := Enough(total, entryType, r), r.last.Some?;
    Session(total, entryType,
            if r.last == Some(Completed) && !enough then 0 else 1,
            if enough || r.last == Some(Aborted) then 1 else 0,
            if r.started && !ended then map[key := Replay(total, entryType, r.trace)] else map[],
            r.started, enough,
            [Task(key, false, r.started, ended, Idle, ended,
                  if r.last == Some(Completed) then Some(Min(total, Counted(entryType, r.trace))) else None,
                  r.trace)],
            Story(total, entryType, r), Looping)
  }

  // The session when the request has been received.
  function Opened(total: u64, entryType: string, key: Key): (s: Session)
    ensures |s.tasks| == 1
  {
    Step(Init(total, entryType), Receive(key, false))
  }

  function ServeAll(s: Session, updates: seq<Update>, n: nat): Session
    requires |s.tasks| == 1
    ensures |ServeAll(s, updates, n).tasks| == 1
  {
    if updates == [] then s
    else
      var before := ServeAll(s, updates[..|updates| - 1], n);
      ServeKeeps(before, 0, updates[|updates| - 1], n);
      Serve(before, 0, updates[|updates| - 1], n)
  }

  lemma ServeKeeps(s: Session, i: nat, u: Update, n: nat)
    requires i < |s.tasks|
    ensures |Serve(s, i, u, n).tasks| == |s.tasks|
  {
    hide Alone;
    AloneKeeps(Step(s, Deliver(i, u)), i, n);
  }

  lemma {:induction false} AloneKeeps(s: Session, i: nat, n: nat)
    requires i < |s.tasks|
    ensures |Alone(s, i, n).tasks| == |s.tasks|
    decreases n
  {
    hide NextTask, NextStates, NextEvents;
    if n > 0 {
      AloneKeeps(AdvanceTask(s, i, false), i, n - 1);
    }
  }

  lemma StartSnoc(updates: seq<Update>, u: Update)
    ensures var b := FirstStart(updates, 0);
            FirstStart(updates + [u], 0) == if b < |updates| || Starts(u) then b else b + 1
  {
    hide FirstStart;
    var longer, b, b' := updates + [u], FirstStart(updates, 0), FirstStart(updates + [u], 0);
    assert longer[|updates|] == u && forall j :: 0 <= j < |updates| ==> longer[j] == updates[j];
    if b' < |updates| {
      assert Starts(updates[b']);
    }
  }

  lemma EndSnoc(updates: seq<Update>, u: Update, b: nat)
    requires b <= |updates|
    ensures var n := FirstEnd(updates, b);
            FirstEnd(updates + [u], b) == if n < |updates| || !Starts(u) then n else n + 1
  {
    hide FirstEnd;
    var longer, n, n' := updates + [u], FirstEnd(updates, b), FirstEnd(updates + [u], b);
    assert longer[|updates|] == u && forall j :: 0 <= j < |updates| ==> longer[j] == updates[j];
    if n' < |updates| {
      assert !Starts(updates[n']);
    }
  }

  lemma StandOk(updates: seq<Update>)
    ensures var r := Stand(updates);
            && (r.started ==> r.trace != [])
            && (!r.started ==> r == Request(false, None, []))
            && (r.last.Some? ==> r.last.value.Completed? || r.last.value.Aborted?)
  {
    hide FirstStart, FirstEnd;
  }

  lemma SliceSnoc(updates: seq<Update>, u: Update, b: nat, n: nat)
    requires b <= n <= |updates|
    ensures (updates + [u])[b..n] == updates[b..n]
    ensures n == |updates| ==> (updates + [u])[b..n + 1] == updates[b..n] + [u] && (updates + [u])[n] == u
    ensures n < |updates| ==> (updates + [u])[n] == updates[n]
  {
  }

  // The stand moves on by one update.
  lemma StandSnoc(updates: seq<Update>, u: Update)
    ensures var r, r' := Stand(updates), Stand(updates + [u]);
            if !r.started then r' == (if Starts(u) then Request(true, None, [u]) else r)
            else if r.last.Some? then r' == r
            else r' == (if Starts(u) then r.(trace := r.trace + [u]) else r.(last := Some(u)))
  {
    hide FirstStart, FirstEnd;
    StartSnoc(updates, u);
    StandOk(updates);
    var b := FirstStart(updates, 0);
    EndSnoc(updates, u, b);
    SliceSnoc(updates, u, b, FirstEnd(updates, b));
  }

  lemma ShownTrace(total: u64, entryType: string, trace: seq<Update>, u: Update)
    ensures ShownEvents(ShownValues(total, entryType, trace + [u]))
         == ShownEvents(ShownValues(total, entryType, trace))
            + ShownEvent(0, u, Replay(total, entryType, trace + [u]))
  {
    hide Replay, ShownValues, Transferred;
    ShownSnoc(total, entryType, trace, u);
    ReplayReflects(total, entryType, trace + [u]);
    ShownBounded(total, entryType, trace + [u]);
    var values, st := ShownValues(total, entryType, trace), Replay(total, entryType, trace + [u]);
    if u.Progress? {
      assert (values + [Transferred(st)])[..|values|] == values;
    } else {
      assert values + [] == values && ShownEvents(values) + [] == ShownEvents(values);
    }
  }

  lemma SoloFirst(total: u64, entryType: string, key: Key, u: Update, n: nat)
    requires n >= 9 && Starts(u)
    ensures Serve(Solo(total, entryType, key, Request(false, None, [])), 0, u, n)
         == Solo(total, entryType, key, Request(true, None, [u]))
  {
    var s := Solo(total, entryType, key, Request(false, None, []));
    ServesFirst(s, 0, u, n);
    ReplaySnoc(total, entryType, [], u);
    ShownTrace(total, entryType, [], u);
    NoneShown(total, entryType);
    assert [] + [u] == [u];
    hide Serve, Replay, ShownValues, ShownEvent, Apply, Fresh, PayloadComplete, Counted;
    var st := Replay(total, entryType, [u]);
    assert s.states[key := st] == map[key := st] && |map[key := st]| == 1;
    assert At(Begun(s, 0, u, st), 0, s.tasks[0].(started := true, seen := [u]))
        == Solo(total, entryType, key, Request(true, None, [u]));
  }

  lemma StorySnoc(total: u64, entryType: string, r: Request, u: Update)
    requires r.started && r.last.None?
    ensures Story(total, entryType, r.(trace := r.trace + [u]))
         == Story(total, entryType, r) + ShownEvent(0, u, Replay(total, entryType, r.trace + [u]))
  {
    hide Replay, ShownValues, ShownEvents, ShownEvent, PayloadComplete, Counted;
    ShownTrace(total, entryType, r.trace, u);
  }

  lemma SoloNext(total: u64, entryType: string, key: Key, r: Request, u: Update, n: nat)
    requires n >= 9 && Starts(u) && r.started && r.last.None? && r.trace != []
    ensures Serve(Solo(total, entryType, key, r), 0, u, n) == Solo(total, entryType, key, r.(trace := r.trace + [u]))
  {
    hide Serve, Replay, Story, ShownEvent, Apply, Starts, PayloadComplete, Counted;
    var s := Solo(total, entryType, key, r);
    ServesNext(s, 0, u, n);
    ReplaySnoc(total, entryType, r.trace, u);
    StorySnoc(total, entryType, r, u);
    var st := Replay(total, entryType, r.trace + [u]);
    assert s.states[key := st] == map[key := st];
  }

  lemma SoloIsLast(total: u64, entryType: string, key: Key, r: Request)
    requires r.started && r.last.None? && r.trace != []
    ensures var s := Solo(total, entryType, key, r);
            LastOpen(s, 0) && Bytes(s, 0) == Min(total, Counted(entryType, r.trace))
  {
    hide Replay, Story, PayloadComplete, Counted, Settle, Min;
    AccountedAtCompletion(total, entryType, r.trace);
    assert Solo(total, entryType, key, r).states.Keys == {key};
  }

  lemma SoloCompleted(total: u64, entryType: string, key: Key, r: Request, n: nat)
    requires n >= 9 && r.started && r.last.None? && r.trace != []
    ensures Serve(Solo(total, entryType, key, r), 0, Completed, n)
         == Solo(total, entryType, key, r.(last := Some(Completed)))
  {
    hide Serve, Replay, ShownValues, ShownEvents, PayloadComplete, Counted, LastOpen, Bytes, Min;
    var s := Solo(total, entryType, key, r);
    SoloIsLast(total, entryType, key, r);
    if PayloadComplete(Bytes(s, 0), total) {
      ServesCompletion(s, 0, n);
    } else {
      ServesShortage(s, 0, n);
    }
  }

  lemma SoloAborted(total: u64, entryType: string, key: Key, r: Request, n: nat)
    requires n >= 9 && r.started && r.last.None? && r.trace != []
    ensures Serve(Solo(total, entryType, key, r), 0, Aborted, n)
         == Solo(total, entryType, key, r.(last := Some(Aborted)))
  {
    hide Serve, Replay, ShownValues, ShownEvents, PayloadComplete, Counted, LastOpen, Bytes, Min;
    var s := Solo(total, entryType, key, r);
    SoloIsLast(total, entryType, key, r);
    ServesAbort(s, 0, n);
  }

  // What an update makes of the stand.
  function Onward(r: Request, u: Update): Request {
    if r.last.Some? || (!r.started && !Starts(u)) then r
    else if Starts(u) then Request(true, None, r.trace + [u])
    else r.(last := Some(u))
  }

  predicate Sound(r: Request) {
    && (r.started <==> r.trace != []) && (!r.started ==> r.last.None?)
    && (r.last.Some? ==> !Starts(r.last.value))
  }

  lemma SoloStep(total: u64, entryType: string, key: Key, r: Request, u: Update, n: nat)
    requires n >= 9 && Sound(r)
    ensures Sound(Onward(r, u))
    ensures Serve(Solo(total, entryType, key, r), 0, u, n) == Solo(total, entryType, key, Onward(r, u))
  {
    hide Serve, Replay, ShownValues, ShownEvents, PayloadComplete, Counted;
    if r.last.Some? || (!r.started && !Starts(u)) {
      ServesNothing(Solo(total, entryType, key, r), 0, u, n);
    } else if Starts(u) {
      if r.started {
        SoloNext(total, entryType, key, r, u, n);
      } else {
        assert r == Request(false, None, []) && r.trace + [u] == [u];
        SoloFirst(total, entryType, key, u, n);
      }
    } else if u.Completed? {
      SoloCompleted(total, entryType, key, r, n);
    } else {
      SoloAborted(total, entryType, key, r, n);
    }
  }

  lemma StandOnward(updates: seq<Update>, u: Update)
    ensures Sound(Stand(updates)) && Stand(updates + [u]) == Onward(Stand(updates), u)
  {
    StandOk(updates);
    StandSnoc(updates, u);
    hide Stand;
  }

  // The session serving one request, undisturbed: after any updates its state and
  // everything it has emitted are those of the story.
  lemma {:induction false} SoloRun(total: u64, entryType: string, key: Key, updates: seq<Update>, n: nat)
    requires n >= 9
    ensures var r := Stand(updates);
            && (r.started ==> r.trace != [])
            && ServeAll(Opened(total, entryType, key), updates, n) == Solo(total, entryType, key, r)
  {
    StandOk(updates);
    hide *;
    if updates == [] {
      NothingServed(total, entryType, key, n);
    } else {
      var k := |updates| - 1;
      var before, u := updates[..k], updates[k];
      SoloRun(total, entryType, key, before, n);
      assert updates == before + [u];
      StandOnward(before, u);
      SoloStep(total, entryType, key, Stand(before), u, n);
      ServeLast(Opened(total, entryType, key), updates, n);
    }
  }

  lemma ServeLast(s: Session, updates: seq<Update>, n: nat)
    requires |s.tasks| == 1 && updates != []
    ensures var k := |updates| - 1;
            ServeAll(s, updates, n) == Serve(ServeAll(s, updates[..k], n), 0, updates[k], n)
  {
    hide Serve;
  }

  lemma NothingServed(total: u64, entryType: string, key: Key, n: nat)
    ensures Stand([]) == Request(false, None, [])
    ensures ServeAll(Opened(total, entryType, key), [], n)
         == Solo(total, entryType, key, Request(false, None, []))
  {
  }

  // --------------------------------------------------------- the end of the session

  // The request's channel ends, then the provider's, and the session concludes.
  function Finish(s: Session, n: nat): Session
    requires |s.tasks| == 1
  {
    Step(Step(Step(Alone(Step(s, Hangup(0)), 0, n), Close), Conclude), Conclude)
  }

  lemma Concludes(s: Session)
    requires |s.tasks| == 1 && s.tasks[0].pc.Done? && s.main.Looping?
    ensures var covered := s.completed >= s.active && s.completed >= 1;
            Step(Step(Step(s, Close), Conclude), Conclude).events
              == s.events + if covered && !s.completedFlag then [TransferCompleted(None)] else []
  {
    var s1 := Step(s, Close);
    assert s1 == s.(main := Draining) && AllDone(s1);
    var s2 := Step(s1, Conclude);
    assert s2 == s.(main := Loaded(s.completed));
    assert s.events + [] == s.events;
  }

  // A task in the tail branch finds its own entry in the map and gives up.
  lemma NotQuiet(s: Session, i: nat, t: Task, n: nat)
    requires n >= 5 && i < |s.tasks| && s.active == s.completed >= 1 && |s.states| > 0
    ensures Going(s, i, t.(pc := LoadActive(true, s.completed)), n) == Going(s, i, t.(pc := Done), n - 5)
  {
    var c := s.completed;
    var t1, t2, t3 := t.(pc := LoadActive(true, c)), t.(pc := Sleep(true, c)), t.(pc := LoadAgain(true, c, c));
    var t4, t5 := t.(pc := LookAtStates(true, true)), t.(pc := LookAtClock(true, false));
    assert NextPc(s, t1, false) == t2.pc && NextPc(s, t2, false) == t3.pc && NextPc(s, t3, false) == t4.pc;
    assert NextPc(s, t4, false) == t5.pc && NextPc(s, t5, false) == Done;
    hide *;
    Checking(s, i, t1, n);
    Checking(s, i, t2, n - 1);
    Checking(s, i, t3, n - 2);
    Checking(s, i, t4, n - 3);
    Checking(s, i, t5, n - 4);
  }

  lemma TailPasses(s: Session, i: nat, t: Task, n: nat)
    requires n >= 9 && i < |s.tasks| && t.pc.ReadTail? && t.key in s.states && |s.states| > 0
    requires s.active == s.completed + 1 && PayloadComplete(s.states[t.key].accounted, s.total)
    ensures Going(s, i, t, n) == At(s.(completed := s.completed + 1), i,
              t.(pc := Done, resolved := true, judged := Some(s.states[t.key].accounted)))
  {
    var bytes := s.states[t.key].accounted;
    assert VerdictPc(bytes, s.total, true) == Increment(true);
    hide *;
    ReadsTail(s, i, t, n);
    var t1 := t.(judged := Some(bytes));
    Increments(s, i, t1.(pc := Increment(true)), n - 1);
    var s1, t2 := s.(completed := s.completed + 1), t1.(resolved := true);
    NotQuiet(s1, i, t2, n - 2);
    Rests(s1, i, t2.(pc := Done), n - 7);
  }

  lemma TailFails(s: Session, i: nat, t: Task, n: nat)
    requires n >= 9 && i < |s.tasks| && t.pc.ReadTail? && t.key in s.states && s.active > 0
    requires !PayloadComplete(s.states[t.key].accounted, s.total)
    ensures Going(s, i, t, n) == At(s.(active := s.active - 1), i,
              t.(pc := Done, resolved := true, judged := Some(s.states[t.key].accounted)))
  {
    var bytes := s.states[t.key].accounted;
    assert VerdictPc(bytes, s.total, true) == Decrement(true);
    hide *;
    ReadsTail(s, i, t, n);
    var t1 := t.(judged := Some(bytes));
    Decrements(s, i, t1.(pc := Decrement(true)), n - 1);
    Rests(s.(active := s.active - 1), i, t1.(pc := Done, resolved := true), n - 2);
  }

  // The request was aborted, or its channel ended without Completed although the
  // blobs before the last one pass the test.
  predicate Late(total: u64, entryType: string, r: Request) {
    || r.last == Some(Aborted)
    || (r.started && r.last.None? && PayloadComplete(Min(total, BlobsDone(entryType, r.trace)), total))
  }

  lemma HangupAt(s: Session, n: nat)
    requires |s.tasks| == 1 && Waiting(s, 0)
    ensures Alone(Step(s, Hangup(0)), 0, n) == Going(s, 0, OnHangup(s.tasks[0]), n)
  {
    hide Alone;
  }

  lemma SoloHangs(total: u64, entryType: string, key: Key, r: Request, n: nat)
    requires n >= 9 && Sound(r)
    ensures var s := Solo(total, entryType, key, r);
            var s' := Alone(Step(s, Hangup(0)), 0, n);
            && |s'.tasks| == 1 && s'.tasks[0].pc.Done? && s'.main.Looping?
            && s'.events == s.events && s'.completedFlag == s.completedFlag
            && (s'.completed >= s'.active && s'.completed >= 1 && !s'.completedFlag <==> Late(total, entryType, r))
  {
    hide Replay, Story, PayloadComplete, Counted, BlobsDone, Going, Step, Alone, Min;
    var s := Solo(total, entryType, key, r);
    var t := s.tasks[0];
    HangupAt(s, n);
    if r.started && r.last.None? {
      AccountedIsBlobsDone(total, entryType, r.trace);
      var t0 := t.(pc := ReadTail);
      assert key in s.states && s.states[key] == Replay(total, entryType, r.trace) && |s.states| == 1;
      if PayloadComplete(s.states[key].accounted, total) {
        TailPasses(s, 0, t0, n);
      } else {
        TailFails(s, 0, t0, n);
      }
    } else {
      Rests(s, 0, t.(pc := Done), n);
    }
  }

  // From the request to the end of the session, undisturbed, these are all the
  // events: the story of the request, and the session's own transfer-completed
  // if the request was aborted or passed only in the tail branch.
  lemma SoloSessionEvents(total: u64, entryType: string, key: Key, updates: seq<Update>, n: nat)
    requires n >= 9
    ensures var r := Stand(updates);
            Finish(ServeAll(Opened(total, entryType, key), updates, n), n).events
              == Story(total, entryType, r) + if Late(total, entryType, r) then [TransferCompleted(None)] else []
  {
    SoloRun(total, entryType, key, updates, n);
    StandOnward(updates, Completed);
    SoloHangs(total, entryType, key, Stand(updates), n);
    hide Stand, ServeAll, Opened, Story, Late, Alone, Sound;
    var s := Solo(total, entryType, key, Stand(updates));
    var s' := Alone(Step(s, Hangup(0)), 0, n);
    assert s.events == Story(total, entryType, Stand(updates));
    hide Solo, Step;
    Concludes(s');
  }
}
