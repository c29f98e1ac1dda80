/**
  A version that nobody purges, whose reviews and recovery scans write what they read, and that no scan fails while it is
  being extracted: whatever else goes on, its history is a run of the state machine and one task at a time extracts it.
 */
module QuietVersions {
  import opened Lifecycle
  import opened VersionWriters

  /** The unguarded writers that check what they read. */
  predicate Checks(op: Op) {
    op.Validate? || op.Reject? || op.Demote? || op.Recover?
  }

  /** The state before event n. */
  function StateAt(s: State, events: seq<Event>, n: nat): State
    requires n <= |events|
  {
    if n == 0 then s else Next(StateAt(s, events, n - 1), events[n - 1])
  }

  /** Event i is where task t reads for this operation. */
  predicate ReadsAt(s: State, events: seq<Event>, i: nat, t: int, op: Op)
    requires i <= |events|
  {
    i < |events| && events[i] == Step(t) && t in StateAt(s, events, i).tasks && StateAt(s, events, i).tasks[t] == Reading(op)
  }

  predicate CommitsOn(s: State, e: Event, v: int) {
    Committed(s, e).Some? && Committed(s, e).value.version == v
  }

  /**
    If event j commits the write of a check on v, nothing was committed on v since that task's read, and if the check was a
    recovery scan's, v is not EXTRACTING.
   */
  ghost predicate Timely(s: State, events: seq<Event>, v: int, j: nat)
    requires j < |events|
  {
    var now := StateAt(s, events, j);
    CommitsOn(now, events[j], v) && Checks(Committed(now, events[j]).value) ==>
      && (Committed(now, events[j]).value.Recover? ==> Current(now, v) != Extracting)
      && forall i :: 0 <= i < j && ReadsAt(s, events, i, events[j].task, Committed(now, events[j]).value) ==>
           v in StateAt(s, events, i).history && StateAt(s, events, i).history[v] == now.history[v]
  }

  ghost predicate Undisturbed(s: State, events: seq<Event>, v: int) {
    && (forall i :: 0 <= i < |events| && events[i].Begin? ==> events[i].op != Purge(v))
    && (forall j :: 0 <= j < |events| ==> Timely(s, events, v, j))
  }

  /** The task is extracting v, or about to write how that ended. */
  predicate Extracts(task: Task, v: int) {
    match task
    case Parsing(version) => version == v
    case Reading(op) => op.version == v && (op.Finish? || op.GiveUp?)
    case Writing(op) => op.version == v && (op.Finish? || op.GiveUp?)
    case _ => false
  }

  /** The task is no purge of v; if it is past its check, it made it on the status that one of the first n events found. */
  ghost predicate Calm(s: State, events: seq<Event>, v: int, n: nat, t: int)
    requires n <= |events| && t in StateAt(s, events, n).tasks
  {
    match StateAt(s, events, n).tasks[t]
    case Reading(op) => op != Purge(v)
    case Writing(op) => op != Purge(v) && (op.version == v && Checks(op) ==> exists i :: 0 <= i < n && Checked(s, events, i, t, op))
    case _ => true
  }

  ghost predicate Checked(s: State, events: seq<Event>, i: nat, t: int, op: Op)
    requires i <= |events|
  {
    ReadsAt(s, events, i, t, op) && op.version in StateAt(s, events, i).history && Passes(op, Current(StateAt(s, events, i), op.version))
  }

  /** At most one task extracts v, and v is EXTRACTING while one does. */
  ghost predicate OneExtracts(s: State, v: int) {
    && v in s.history && IsRun(s.history[v])
    && (forall t :: t in s.tasks && Extracts(s.tasks[t], v) ==> Current(s, v) == Extracting)
    && (forall t, u :: t in s.tasks && u in s.tasks && Extracts(s.tasks[t], v) && Extracts(s.tasks[u], v) ==> t == u)
  }

  ghost predicate AllCalm(s: State, events: seq<Event>, v: int, n: nat)
    requires n <= |events|
  {
    forall t :: t in StateAt(s, events, n).tasks ==> Calm(s, events, v, n, t)
  }

  /** A purge of v starts only by beginning one. */
  lemma NoPurgeBegins(s: State, e: Event, v: int, t: int)
    requires t in Next(s, e).tasks && (e.Begin? ==> e.op != Purge(v))
    ensures Next(s, e).tasks[t] == Reading(Purge(v)) ==> t in s.tasks && s.tasks[t] == Reading(Purge(v))
  {
    hide Transitions, Predecessors, Passes, Guarded;
  }

  /** An event moves a task from reading to writing only past its check. */
  lemma WritesPastCheck(s: State, e: Event, t: int, op: Op)
    requires t in Next(s, e).tasks && Next(s, e).tasks[t] == Writing(op)
    ensures t in s.tasks
    ensures || s.tasks[t] == Writing(op)
            || (e == Step(t) && s.tasks[t] == Reading(op) && op.version in s.history && Passes(op, Current(s, op.version)))
  {
    hide Transitions, Predecessors, Passes, Guarded;
  }

  lemma CalmNext(s: State, events: seq<Event>, v: int, n: nat, t: int)
    requires Undisturbed(s, events, v) && n < |events| && AllCalm(s, events, v, n)
    requires t in StateAt(s, events, n + 1).tasks
    ensures Calm(s, events, v, n + 1, t)
  {
    hide Next, Passes, Timely;
    var now, after := StateAt(s, events, n), StateAt(s, events, n + 1);
    if t in now.tasks {
      assert Calm(s, events, v, n, t);
    }
    match after.tasks[t]
    case Reading(op) =>
      NoPurgeBegins(now, events[n], v, t);
    case Writing(op) =>
      WritesPastCheck(now, events[n], t, op);
      if op.version == v && Checks(op) {
        if now.tasks[t] == Writing(op) {
          var i :| 0 <= i < n && Checked(s, events, i, t, op);
        } else {
          assert Checked(s, events, n, t, op);
        }
      }
    case _ =>
  }

  /** The check of an unguarded write that is committed on v still holds. */
  lemma CheckHolds(s: State, events: seq<Event>, v: int, n: nat)
    requires Undisturbed(s, events, v) && n < |events| && AllCalm(s, events, v, n)
    requires CommitsOn(StateAt(s, events, n), events[n], v)
    ensures var now, op := StateAt(s, events, n), Committed(StateAt(s, events, n), events[n]).value;
            && !op.Purge? && (op.Recover? ==> Current(now, v) != Extracting) && (Checks(op) ==> Passes(op, Current(now, v)))
  {
    hide Next, Passes, StateAt, Guarded, Transitions, Predecessors;
    var now, t := StateAt(s, events, n), events[n].task;
    var op := Committed(now, events[n]).value;
    assert Calm(s, events, v, n, t) && now.tasks[t] == Writing(op);
    assert Timely(s, events, v, n);
    if Checks(op) {
      var i :| 0 <= i < n && Checked(s, events, i, t, op);
      assert StateAt(s, events, i).history[v] == now.history[v];
    }
  }

  /** Such a write, and every guarded one, takes v along an edge; off an extraction only the extracting task takes it. */
  lemma CommitIsEdge(s: State, e: Event, v: int)
    requires OneExtracts(s, v) && CommitsOn(s, e, v)
    requires var op := Committed(s, e).value;
             !op.Purge? && (op.Recover? ==> Current(s, v) != Extracting) && (Checks(op) ==> Passes(op, Current(s, v)))
    ensures e.Step? && e.task in s.tasks
    ensures var op := Committed(s, e).value;
            && Target(op) in Transitions(Current(s, v))
            && (op.Finish? || op.GiveUp? ==> Extracts(s.tasks[e.task], v))
            && (op.Start? ==> Current(s, v) != Extracting)
            && (Current(s, v) == Extracting ==> op.Finish? || op.GiveUp?)
  {
    var op := Committed(s, e).value;
    assert s.tasks[e.task] == Writing(op);
    if Checks(op) {
      CheckedStatusIsPredecessor(op, Current(s, v));
    }
  }

  /** Who extracts v after an event did so before, or has just started. */
  lemma StepExtracts(s: State, e: Event, v: int, t: int)
    requires t in Next(s, e).tasks && Extracts(Next(s, e).tasks[t], v)
    ensures t in s.tasks
    ensures || (Extracts(s.tasks[t], v) && !(CommitsOn(s, e, v) && e.task == t))
            || (CommitsOn(s, e, v) && Committed(s, e).value == Start(v) && e.task == t)
  {
    hide Transitions, Predecessors, Passes;
  }

  lemma OneExtractsNext(s: State, e: Event, v: int)
    requires OneExtracts(s, v)
    requires CommitsOn(s, e, v) ==>
               var op := Committed(s, e).value;
               !op.Purge? && (op.Recover? ==> Current(s, v) != Extracting) && (Checks(op) ==> Passes(op, Current(s, v)))
    ensures OneExtracts(Next(s, e), v)
  {
    hide Next, Extracts, IsRun, Committed, Transitions, Passes, Checks;
    var after := Next(s, e);
    HistoryStep(s, e, v);
    if CommitsOn(s, e, v) {
      CommitIsEdge(s, e, v);
      ExtendRun(s.history[v], Target(Committed(s, e).value));
    }
    forall t | t in after.tasks && Extracts(after.tasks[t], v)
      ensures Current(after, v) == Extracting
    {
      StepExtracts(s, e, v, t);
    }
    forall t, u | t in after.tasks && u in after.tasks && Extracts(after.tasks[t], v) && Extracts(after.tasks[u], v)
      ensures t == u
    {
      StepExtracts(s, e, v, t);
      StepExtracts(s, e, v, u);
    }
  }

  /** One more event keeps the history legal and the extraction of v to one task. */
  lemma {:induction false} OrderlyUpTo(s: State, events: seq<Event>, v: int, n: nat)
    requires Initial(s) && v in s.history && Undisturbed(s, events, v) && n <= |events|
    ensures AllCalm(s, events, v, n) && OneExtracts(StateAt(s, events, n), v)
  {
    hide Next, Undisturbed, Calm, Checks, Passes;
    if n > 0 {
      OrderlyUpTo(s, events, v, n - 1);
      forall t | t in StateAt(s, events, n).tasks
        ensures Calm(s, events, v, n, t)
      {
        CalmNext(s, events, v, n - 1, t);
      }
      if CommitsOn(StateAt(s, events, n - 1), events[n - 1], v) {
        CheckHolds(s, events, v, n - 1);
      }
      OneExtractsNext(StateAt(s, events, n - 1), events[n - 1], v);
    }
  }

  lemma {:induction false} StateAtEnd(s: State, events: seq<Event>, n: nat)
    requires n <= |events|
    ensures StateAt(s, events, n) == Run(s, events[..n])
  {
    if n > 0 {
      StateAtEnd(s, events, n - 1);
      assert events[..n] == events[..n - 1] + [events[n - 1]];
      RunThen(s, events[..n - 1], events[n - 1]);
    }
  }

  /**
    However many clients, workers, scans and reviewers act on v and on other versions, guarded or not: if nobody purges v,
    its reviews and scans write before anybody else has changed what they read, and no scan fails it while it is EXTRACTING,
    then v's history is a run of the state machine, at most one task is parsing v, and v is EXTRACTING while one is.
   */
  lemma UndisturbedIsLegal(s: State, events: seq<Event>, v: int)
    requires Initial(s) && v in s.history && Undisturbed(s, events, v)
    ensures var end := Run(s, events);
            && v in end.history && IsRun(end.history[v])
            && (forall t :: t in end.tasks && end.tasks[t] == Parsing(v) ==> Current(end, v) == Extracting)
            && (forall t, u :: t in end.tasks && u in end.tasks && end.tasks[t] == end.tasks[u] == Parsing(v) ==> t == u)
  {
    hide Undisturbed, Run, AllCalm;
    OrderlyUpTo(s, events, v, |events|);
    StateAtEnd(s, events, |events|);
    assert events[..|events|] == events;
    var end := Run(s, events);
    assert forall t :: t in end.tasks && end.tasks[t] == Parsing(v) ==> Extracts(end.tasks[t], v);
  }
}
