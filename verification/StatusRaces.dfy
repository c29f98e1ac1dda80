/**
  Schedules of the status writers, event by event, in which the unguarded writes leave the table.
 */
module StatusRaces {
  import opened Lifecycle
  import opened VersionWriters

  /** What the events have led to: one version with this history, and these jobs in a queue for 16. */
  predicate Reached(s: State, events: seq<Event>, at: State, path: seq<Status>, queue: seq<int>) {
    Run(s, events) == at && at.history == map[1 := path] && path != [] && at.queue == queue && at.bound == 16
  }

  function Alone(start: Status): State {
    Sys(map[1 := [start]], [], 16, map[])
  }

  lemma Begun(start: Status)
    ensures Reached(Alone(start), [], Alone(start), [start], []) && Initial(Alone(start)) && AllLegal(Alone(start))
  {
  }

  /** A task begins, reads the row, and its check passes. */
  lemma DoRead(s: State, before: seq<Event>, middle: State, path: seq<Status>, queue: seq<int>, t: int, op: Op)
    returns (end: State, events: seq<Event>)
    requires Reached(s, before, middle, path, queue) && t !in middle.tasks
    requires Begins(op) && op.version == 1 && Passes(op, path[|path| - 1])
    ensures Reached(s, events, end, path, queue) && end.tasks == middle.tasks[t := Writing(op)]
  {
    hide Run, Passes;
    RunThen(s, before, Begin(t, op));
    RunThen(s, before + [Begin(t, op)], Step(t));
    events, end := before + [Begin(t, op)] + [Step(t)], Goes(middle, t, Writing(op));
    assert Goes(middle, t, Reading(op)).tasks[t] == Reading(op);
    assert Goes(Goes(middle, t, Reading(op)), t, Writing(op)) == end;
  }

  /** A worker takes the oldest job, reads the row, and its check passes. */
  lemma DoDequeue(s: State, before: seq<Event>, middle: State, path: seq<Status>, t: int) returns (end: State, events: seq<Event>)
    requires Reached(s, before, middle, path, [1]) && t !in middle.tasks && path[|path| - 1] == QueuedForExtraction
    ensures Reached(s, events, end, path, []) && end.tasks == middle.tasks[t := Writing(Start(1))]
  {
    hide Run;
    RunThen(s, before, Dequeue(t));
    RunThen(s, before + [Dequeue(t)], Step(t));
    events := before + [Dequeue(t)] + [Step(t)];
    var reading := Goes(middle.(queue := []), t, Reading(Start(1)));
    assert middle.queue[1..] == [] && Next(middle, Dequeue(t)) == reading;
    end := Goes(reading, t, Writing(Start(1)));
    assert reading.tasks[t] == Reading(Start(1)) && Next(reading, Step(t)) == end;
  }

  /** The parser of task t returns, and what it found is about to be written. */
  lemma DoParsed(s: State, before: seq<Event>, middle: State, path: seq<Status>, queue: seq<int>, t: int, ok: bool)
    returns (end: State, events: seq<Event>)
    requires Reached(s, before, middle, path, queue) && t in middle.tasks && middle.tasks[t] == Parsing(1)
    requires ok ==> path[|path| - 1] == Extracting
    ensures Reached(s, events, end, path, queue) && end.tasks == middle.tasks[t := Writing(if ok then Finish(1) else GiveUp(1))]
  {
    hide Run;
    var op := if ok then Finish(1) else GiveUp(1);
    RunThen(s, before, Parsed(t, ok));
    RunThen(s, before + [Parsed(t, ok)], Step(t));
    events, end := before + [Parsed(t, ok)] + [Step(t)], Goes(middle, t, Writing(op));
    assert Goes(middle, t, Reading(op)).tasks[t] == Reading(op);
    assert Goes(Goes(middle, t, Reading(op)), t, Writing(op)) == end;
  }

  function Afterwards(op: Op, at: nat): Task {
    if op.Extract? || op.Retry? then Putting(op, at) else if op.Start? then Parsing(op.version) else Closed(op, Done, at)
  }

  /** The write of task t: unguarded, or on a legal predecessor. */
  lemma DoWrite(s: State, before: seq<Event>, middle: State, path: seq<Status>, queue: seq<int>, t: int, op: Op)
    returns (end: State, events: seq<Event>)
    requires Reached(s, before, middle, path, queue) && t in middle.tasks && middle.tasks[t] == Writing(op) && op.version == 1
    requires Guarded(op) ==> Target(op) in Transitions(path[|path| - 1])
    ensures Reached(s, events, end, path + [Target(op)], queue) && end.tasks == middle.tasks[t := Afterwards(op, |path|)]
  {
    hide Run, Transitions;
    RunThen(s, before, Step(t));
    end, events := Next(middle, Step(t)), before + [Step(t)];
  }

  /** A task that begins, reads and writes undisturbed. */
  lemma DoOp(s: State, before: seq<Event>, middle: State, path: seq<Status>, queue: seq<int>, t: int, op: Op)
    returns (end: State, events: seq<Event>)
    requires Reached(s, before, middle, path, queue) && t !in middle.tasks
    requires Begins(op) && op.version == 1 && Passes(op, path[|path| - 1])
    requires Guarded(op) ==> Target(op) in Transitions(path[|path| - 1])
    ensures Reached(s, events, end, path + [Target(op)], queue) && end.tasks == middle.tasks[t := Afterwards(op, |path|)]
  {
    hide Reached, Passes, Transitions, Target;
    end, events := DoRead(s, before, middle, path, queue, t, op);
    end, events := DoWrite(s, events, end, path, queue, t, op);
  }

  /** A submission that finds the queue empty. */
  lemma DoSubmit(s: State, before: seq<Event>, middle: State, path: seq<Status>, t: int, op: Op)
    returns (end: State, events: seq<Event>)
    requires Reached(s, before, middle, path, []) && t !in middle.tasks
    requires op == (if path[|path| - 1] == Failed then Retry(1) else Extract(1)) && path[|path| - 1] in {Stored, Failed}
    ensures Reached(s, events, end, path + [QueuedForExtraction], [1])
    ensures end.tasks == middle.tasks[t := Closed(op, Accepted, |path|)]
  {
    hide Run;
    end, events := DoOp(s, before, middle, path, [], t, op);
    RunThen(s, events, Step(t));
    var put := Next(end, Step(t));
    assert end.tasks[t] == Putting(op, |path|);
    assert put.tasks == middle.tasks[t := Closed(op, Accepted, |path|)];
    end, events := put, events + [Step(t)];
  }

  /** A job is taken and its extraction starts. */
  lemma DoStart(s: State, before: seq<Event>, middle: State, path: seq<Status>, t: int) returns (end: State, events: seq<Event>)
    requires Reached(s, before, middle, path, [1]) && t !in middle.tasks && path[|path| - 1] == QueuedForExtraction
    ensures Reached(s, events, end, path + [Extracting], []) && end.tasks == middle.tasks[t := Parsing(1)]
  {
    hide Reached;
    end, events := DoDequeue(s, before, middle, path, t);
    end, events := DoWrite(s, events, end, path, [], t, Start(1));
  }

  lemma DoResult(s: State, before: seq<Event>, middle: State, path: seq<Status>, queue: seq<int>, t: int, ok: bool)
    returns (end: State, events: seq<Event>)
    requires Reached(s, before, middle, path, queue) && t in middle.tasks && middle.tasks[t] == Parsing(1)
    requires ok ==> path[|path| - 1] == Extracting
    ensures Reached(s, events, end, path + [if ok then Extracted else Failed], queue)
    ensures end.tasks.Keys == middle.tasks.Keys && forall u :: u in middle.tasks && u != t ==> end.tasks[u] == middle.tasks[u]
  {
    hide Reached;
    end, events := DoParsed(s, before, middle, path, queue, t, ok);
    end, events := DoWrite(s, events, end, path, queue, t, if ok then Finish(1) else GiveUp(1));
  }

  // ----- The schedules -----

  /** Two reviewers who both read NEEDS_REVIEW: the version goes from VALIDATED to REJECTED, no edge of the table. */
  lemma TwoReviewersBreakTheTable() returns (s: State, events: seq<Event>)
    ensures Initial(s) && AllLegal(s) && !AllLegal(Run(s, events))
    ensures Run(s, events).history == map[1 := [NeedsReview, Validated, Rejected]]
  {
    hide Run, Initial, Passes;
    s := Alone(NeedsReview);
    Begun(NeedsReview);
    ReviewEdges();
    var end, p := s, [NeedsReview];
    end, events := DoRead(s, [], end, p, [], 1, Validate(1));
    end, events := DoRead(s, events, end, p, [], 2, Reject(1));
    end, events := DoWrite(s, events, end, p, [], 1, Validate(1));
    end, events := DoWrite(s, events, end, p + [Validated], [], 2, Reject(1));
    BreaksAt(end, p + [Validated] + [Rejected], 1);
    assert p + [Validated] + [Rejected] == [NeedsReview, Validated, Rejected];
  }

  lemma BreaksAt(s: State, path: seq<Status>, i: nat)
    requires s.history == map[1 := path] && i + 1 < |path| && path[i + 1] !in Transitions(path[i])
    ensures !AllLegal(s)
  {
    assert !IsRun(path);
  }

  lemma ReviewEdges()
    ensures Passes(Validate(1), NeedsReview) && Passes(Reject(1), NeedsReview)
    ensures Passes(MarkReady(1), Extracted) && NeedsReview in Transitions(Extracted)
    ensures Passes(Recover(1), Extracting)
  {
  }

  /** A job is taken by worker 9; the recovery scan finds it EXTRACTING and fails it while its parser still works. */
  lemma ScanOvertakesWorker() returns (end: State, events: seq<Event>)
    ensures Reached(Alone(Stored), events, end, [Stored, QueuedForExtraction, Extracting, Failed], [])
    ensures end.tasks.Keys == {1, 9, 2} && end.tasks[9] == Parsing(1)
  {
    hide Reached, Passes, Transitions, Target;
    ReviewEdges();
    Begun(Stored);
    var s, p := Alone(Stored), [Stored];
    end, events := DoSubmit(s, [], s, p, 1, Extract(1));
    end, events := DoStart(s, events, end, p + [QueuedForExtraction], 9);
    end, events := Recovered(s, events, end, p + [QueuedForExtraction] + [Extracting], 2);
    assert p + [QueuedForExtraction] + [Extracting] + [Failed] == [Stored, QueuedForExtraction, Extracting, Failed];
  }

  lemma Recovered(s: State, before: seq<Event>, middle: State, path: seq<Status>, t: int) returns (end: State, events: seq<Event>)
    requires Reached(s, before, middle, path, []) && t !in middle.tasks && path[|path| - 1] == Extracting
    ensures Reached(s, events, end, path + [Failed], []) && end.tasks == middle.tasks[t := Closed(Recover(1), Done, |path|)]
  {
    hide Reached;
    end, events := DoOp(s, before, middle, path, [], t, Recover(1));
  }

  /** With a single worker already: its parser gives up after the scan, and FAILED follows FAILED, no edge of the table. */
  lemma LateFailureBreaksTheTable() returns (s: State, events: seq<Event>)
    ensures Initial(s) && AllLegal(s) && !AllLegal(Run(s, events))
    ensures Run(s, events).history == map[1 := [Stored, QueuedForExtraction, Extracting, Failed, Failed]]
  {
    hide Run, Initial, Passes;
    s := Alone(Stored);
    Begun(Stored);
    var p := [Stored, QueuedForExtraction, Extracting, Failed];
    var end;
    end, events := ScanOvertakesWorker();
    end, events := DoResult(s, events, end, p, [], 9, false);
    BreaksAt(end, p + [Failed], 3);
    assert p + [Failed] == [Stored, QueuedForExtraction, Extracting, Failed, Failed];
  }

  /** After the scan the version is retried, and worker 8 takes the new job and extracts it; worker 9 is still parsing. */
  lemma RetryBesideStaleWorker() returns (end: State, events: seq<Event>)
    ensures Reached(Alone(Stored), events, end,
                    [Stored, QueuedForExtraction, Extracting, Failed, QueuedForExtraction, Extracting, Extracted], [])
    ensures end.tasks.Keys == {1, 9, 2, 3, 8} && end.tasks[9] == Parsing(1)
  {
    hide Reached;
    var s, p := Alone(Stored), [Stored, QueuedForExtraction, Extracting, Failed];
    end, events := ScanOvertakesWorker();
    end, events := DoSubmit(s, events, end, p, 3, Retry(1));
    end, events := DoStart(s, events, end, p + [QueuedForExtraction], 8);
    end, events := DoResult(s, events, end, p + [QueuedForExtraction] + [Extracting], [], 8, true);
    assert p + [QueuedForExtraction] + [Extracting] + [Extracted]
        == [Stored, QueuedForExtraction, Extracting, Failed, QueuedForExtraction, Extracting, Extracted];
  }

  /**
    A worker that outlives a recovery scan takes a VALIDATED version back to FAILED: the scan fails the version, a retry
    has a second worker extract it, it is reviewed and validated, and then the first parser gives up.
   */
  lemma StaleFailureUndoesReview() returns (s: State, events: seq<Event>)
    ensures Initial(s) && AllLegal(s)
    ensures Run(s, events).history == map[1 := [Stored, QueuedForExtraction, Extracting, Failed, QueuedForExtraction, Extracting,
                                                Extracted, NeedsReview, Validated, Failed]]
  {
    hide Run, Initial, Passes, Transitions;
    s := Alone(Stored);
    Begun(Stored);
    ReviewEdges();
    var p := [Stored, QueuedForExtraction, Extracting, Failed, QueuedForExtraction, Extracting, Extracted];
    var end;
    end, events := RetryBesideStaleWorker();
    end, events := DoOp(s, events, end, p, [], 4, MarkReady(1));
    end, events := DoOp(s, events, end, p + [NeedsReview], [], 5, Validate(1));
    end, events := DoResult(s, events, end, p + [NeedsReview] + [Validated], [], 9, false);
    assert p + [NeedsReview] + [Validated] + [Failed] == [Stored, QueuedForExtraction, Extracting, Failed, QueuedForExtraction,
                                                          Extracting, Extracted, NeedsReview, Validated, Failed];
  }
}
