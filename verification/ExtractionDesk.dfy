/**
  The async submission routes as they run on one request thread: read the version, flip it to
  QUEUED_FOR_EXTRACTION, then put the job on the bounded queue. Each is the run of one undisturbed
  task of the machine in VersionWriters.
 */
module ExtractionDesk {
  import opened Lifecycle
  import opened VersionWriters

  /** What the submission of a version answers when nobody interferes. */
  function Answer(s: State, op: Op): Reply {
    if op.version !in s.history then Missing
    else if !Passes(op, Current(s, op.version)) then Refused
    else if |s.queue| < s.bound then Accepted
    else Busy
  }

  function Submission(t: int, op: Op): seq<Event> {
    [Begin(t, op), Step(t), Step(t), Step(t)]
  }

  /**
    The whole run of one submission: 202 with the status flipped and the job queued last, 503 with the
    status flipped and no job, 404 or 409 with nothing changed.
   */
  lemma SubmissionRuns(s: State, t: int, op: Op)
    requires (op.Extract? || op.Retry?) && t !in s.tasks
    ensures var end := Run(s, Submission(t, op));
            var reply := Answer(s, op);
            && end.history == (if reply in {Accepted, Busy} then Commits(s, op).history else s.history)
            && end.queue == (if reply == Accepted then s.queue + [op.version] else s.queue)
            && end.bound == s.bound
            && end.tasks == s.tasks[t := Closed(op, reply, if reply in {Accepted, Busy} then |s.history[op.version]| else 0)]
  {
    hide Next, Passes, Run;
    var s1 := Goes(s, t, Reading(op));
    var s2 := Next(s1, Step(t));
    var s3 := Next(s2, Step(t));
    var s4 := Next(s3, Step(t));
    BeginStep(s, t, op);
    RunThree(s, Begin(t, op), Step(t), Step(t));
    RunThen(s, [Begin(t, op), Step(t), Step(t)], Step(t));
    assert Submission(t, op) == [Begin(t, op), Step(t), Step(t)] + [Step(t)];
    SubmissionSteps(s, t, op, s1, s2, s3, s4);
  }

  lemma BeginStep(s: State, t: int, op: Op)
    requires (op.Extract? || op.Retry?) && t !in s.tasks
    ensures Next(s, Begin(t, op)) == Goes(s, t, Reading(op))
  {
  }

  /** The state a submission's next step leads to from each stage of it. */
  lemma ReadStep(s: State, t: int, op: Op)
    ensures Next(Goes(s, t, Reading(op)), Step(t))
            == Goes(s, t, if op.version !in s.history then Closed(op, Missing, 0)
                          else if Passes(op, Current(s, op.version)) then Writing(op) else Closed(op, Refused, 0))
  {
    hide Passes;
  }

  lemma WriteStep(s: State, t: int, op: Op)
    requires (op.Extract? || op.Retry?) && op.version in s.history && Passes(op, Current(s, op.version))
    ensures Next(Goes(s, t, Writing(op)), Step(t)) == Goes(Commits(s, op), t, Putting(op, |s.history[op.version]|))
  {
    hide Passes, Predecessors;
    CheckedStatusIsPredecessor(op, Current(s, op.version));
  }

  lemma ClosedStep(s: State, t: int, op: Op, reply: Reply, at: nat)
    ensures Next(Goes(s, t, Closed(op, reply, at)), Step(t)) == Goes(s, t, Closed(op, reply, at))
  {
  }

  lemma PutStep(s: State, t: int, op: Op, at: nat)
    ensures Next(Goes(s, t, Putting(op, at)), Step(t))
            == if |s.queue| < s.bound then Goes(s.(queue := s.queue + [op.version]), t, Closed(op, Accepted, at))
               else Goes(s, t, Closed(op, Busy, at))
  {
  }

  lemma SubmissionSteps(s: State, t: int, op: Op, s1: State, s2: State, s3: State, s4: State)
    requires (op.Extract? || op.Retry?) && t !in s.tasks && s1 == Goes(s, t, Reading(op))
    requires s2 == Next(s1, Step(t)) && s3 == Next(s2, Step(t)) && s4 == Next(s3, Step(t))
    ensures var reply := Answer(s, op);
            && s4.history == (if reply in {Accepted, Busy} then Commits(s, op).history else s.history)
            && s4.queue == (if reply == Accepted then s.queue + [op.version] else s.queue)
            && s4.bound == s.bound
            && s4.tasks == s.tasks[t := Closed(op, reply, if reply in {Accepted, Busy} then |s.history[op.version]| else 0)]
  {
    hide Next, Passes;
    ReadStep(s, t, op);
    if op.version in s.history && Passes(op, Current(s, op.version)) {
      WriteStep(s, t, op);
      PutStep(Commits(s, op), t, op, |s.history[op.version]|);
    } else {
      ClosedStep(s, t, op, if op.version in s.history then Refused else Missing, 0);
    }
  }

  /** The four answers, with the statuses they depend on written out. */
  lemma SubmissionAnswers(s: State, t: int, op: Op)
    requires (op.Extract? || op.Retry?) && t !in s.tasks
    ensures var end := Run(s, Submission(t, op));
            && t in end.tasks && end.tasks[t].Closed?
            && (end.tasks[t].reply == Missing <==> op.version !in s.history)
            && (op.version in s.history ==>
                  var open := Current(s, op.version) in (if op.Extract? then {Stored, Failed} else {Failed});
                  && (end.tasks[t].reply == Refused <==> !open)
                  && (end.tasks[t].reply == Accepted <==> open && |s.queue| < s.bound)
                  && (end.tasks[t].reply == Busy <==> open && |s.queue| >= s.bound)
                  && end.history == (if open then s.history[op.version := s.history[op.version] + [QueuedForExtraction]] else s.history)
                  && end.queue == if open && |s.queue| < s.bound then s.queue + [op.version] else s.queue)
  {
    hide Run, Submission;
    SubmissionRuns(s, t, op);
  }

  /**
    A submission that meets a full queue has written its status already. It strands the version if and only if no
    older job of it is queued: after a recovery scan failed a version whose job was still waiting, a retry answered
    with 503 leaves that job to the worker.
   */
  lemma BusyStrands(s: State, t: int, op: Op)
    requires (op.Extract? || op.Retry?) && t !in s.tasks && |s.queue| >= s.bound
    requires op.version in s.history && Current(s, op.version) == (if op.Extract? then Stored else Failed)
    requires forall u :: u in s.tasks ==> Harmless(s.tasks[u], op.version)
    ensures var end := Run(s, Submission(t, op));
            && t in end.tasks && end.tasks[t].Closed? && end.tasks[t].reply == Busy
            && op.version in end.history && Current(end, op.version) == QueuedForExtraction
            && (Stranded(end, op.version) <==> op.version !in s.queue)
  {
    hide Run, Submission;
    SubmissionRuns(s, t, op);
  }

  /**
    What releases a stranded version: once a scan that finds it has failed it, a retry is accepted if and only if the queue
    has room, and is answered with 503 otherwise. Both take the version back to QUEUED_FOR_EXTRACTION.
   */
  lemma RecoveryReopens(s: State, t: int, u: int, v: int)
    requires v in s.history && Current(s, v) == QueuedForExtraction
    requires t !in s.tasks && u !in s.tasks && t != u
    ensures var failed := Run(s, [Begin(t, Recover(v)), Step(t), Step(t)]);
            var end := Run(failed, Submission(u, Retry(v)));
            && v in end.history && end.history[v] == s.history[v] + [Failed] + [QueuedForExtraction]
            && u in end.tasks && end.tasks[u].Closed?
            && (end.tasks[u].reply == Accepted <==> |s.queue| < s.bound)
            && (end.tasks[u].reply == Busy <==> |s.queue| >= s.bound)
            && end.queue == if |s.queue| < s.bound then s.queue + [v] else s.queue
  {
    hide Run, Submission;
    RecoveryFails(s, t, v);
    SubmissionRuns(Run(s, [Begin(t, Recover(v)), Step(t), Step(t)]), u, Retry(v));
  }

  class Desk {
    var history: map<int, seq<Status>>
    var queue: seq<int>
    const bound: nat
    ghost var tasks: map<int, Task>

    constructor (maxsize: nat)
      requires maxsize >= 1
      ensures bound == maxsize && Valid() && Initial(Machine()) && history == map[]
    {
      history, queue, bound, tasks := map[], [], maxsize, map[];
    }

    ghost predicate Valid()
      reads this
    {
      forall v :: v in history ==> history[v] != []
    }

    ghost function Machine(): State
      requires Valid()
      reads this
    {
      Sys(history, queue, bound, tasks)
    }

    /** `DocumentService.update_status` to QUEUED_FOR_EXTRACTION: read, assert_transition, guarded UPDATE. */
    method UpdateStatusQueued(v: int) returns (ok: bool)
      requires Valid() && v in history
      modifies `history
      ensures Valid()
      ensures ok <==> old(history[v][|history[v]| - 1]) in Predecessors(QueuedForExtraction)
      ensures history == if ok then old(history)[v := old(history)[v] + [QueuedForExtraction]] else old(history)
    {
      var current := history[v][|history[v]| - 1];
      if QueuedForExtraction !in Transitions(current) {
        return false;
      }
      if history[v][|history[v]| - 1] !in Predecessors(QueuedForExtraction) {
        return false;
      }
      history := history[v := history[v] + [QueuedForExtraction]];
      return true;
    }

    /** `_put_and_build_snapshot`. */
    method PutJob(v: int) returns (reply: Reply)
      modifies `queue
      ensures reply == (if old(|queue|) < bound then Accepted else Busy)
      ensures queue == if reply == Accepted then old(queue) + [v] else old(queue)
    {
      if |queue| < bound {
        queue := queue + [v];
        return Accepted;
      }
      return Busy;
    }

    method EnqueueExtract(v: int, ghost t: int) returns (reply: Reply)
      requires Valid() && t !in tasks
      modifies this
      ensures Valid() && Machine() == Run(old(Machine()), Submission(t, Extract(v)))
      ensures reply == Answer(old(Machine()), Extract(v))
      ensures reply == Missing <==> v !in old(history)
      ensures v in old(history) ==>
                var open := old(history[v][|history[v]| - 1]) in {Stored, Failed};
                && (reply == Refused <==> !open)
                && (reply == Accepted <==> open && old(|queue|) < bound) && (reply == Busy <==> open && old(|queue|) >= bound)
                && history == (if open then old(history)[v := old(history[v]) + [QueuedForExtraction]] else old(history))
                && queue == if open && old(|queue|) < bound then old(queue) + [v] else old(queue)
    {
      hide Run, Submission;
      SubmissionRuns(Machine(), t, Extract(v));
      PredecessorsWrittenOut(QueuedForExtraction);
      ghost var at := if v in history then |history[v]| else 0;
      if v !in history {
        reply := Missing;
      } else {
        var ok := UpdateStatusQueued(v);
        if !ok {
          reply := Refused;
        } else {
          reply := PutJob(v);
        }
      }
      tasks := tasks[t := Closed(Extract(v), reply, if reply in {Accepted, Busy} then at else 0)];
    }

    method EnqueueRetry(v: int, ghost t: int) returns (reply: Reply)
      requires Valid() && t !in tasks
      modifies this
      ensures Valid() && Machine() == Run(old(Machine()), Submission(t, Retry(v)))
      ensures reply == Answer(old(Machine()), Retry(v))
      ensures reply == Missing <==> v !in old(history)
      ensures v in old(history) ==>
                var open := old(history[v][|history[v]| - 1]) in {Failed};
                && (reply == Refused <==> !open)
                && (reply == Accepted <==> open && old(|queue|) < bound) && (reply == Busy <==> open && old(|queue|) >= bound)
                && history == (if open then old(history)[v := old(history[v]) + [QueuedForExtraction]] else old(history))
                && queue == if open && old(|queue|) < bound then old(queue) + [v] else old(queue)
    {
      hide Run, Submission;
      SubmissionRuns(Machine(), t, Retry(v));
      PredecessorsWrittenOut(QueuedForExtraction);
      ghost var at := if v in history then |history[v]| else 0;
      if v !in history {
        reply := Missing;
      } else if history[v][|history[v]| - 1] != Failed {
        reply := Refused;
      } else {
        var ok := UpdateStatusQueued(v);
        if !ok {
          reply := Refused;
        } else {
          reply := PutJob(v);
        }
      }
      tasks := tasks[t := Closed(Retry(v), reply, if reply in {Accepted, Busy} then at else 0)];
    }
  }
}
