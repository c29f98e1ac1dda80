/**
  Everything that writes a version's status, as steps of concurrent tasks. A task first reads the
  row and checks what it read, then writes; between the two any other task may write. Writes through
  `update_version_status` are guarded by the predecessor set; failures, reviews, demotions and purges
  write unconditionally. Submissions that got their status write through then put a job on a bounded
  queue, which the worker drains.
 */
module VersionWriters {
  import opened Wrappers
  import opened Lifecycle

  datatype Op =
    | Extract(version: int)    // POST extract, async mode
    | Retry(version: int)      // POST retry-extraction, async mode
    | Start(version: int)      // the worker (or the inline route) begins to extract
    | Finish(version: int)     // the parser succeeded
    | GiveUp(version: int)     // the parser failed: mark_failed
    | Recover(version: int)    // the stuck-extraction scan found the version: mark_failed
    | MarkReady(version: int)  // semantic output generated
    | Validate(version: int)
    | Reject(version: int)
    | Demote(version: int)
    | Supersede(version: int)
    | Purge(version: int)

  function Target(op: Op): Status {
    match op
    case Extract(_) => QueuedForExtraction
    case Retry(_) => QueuedForExtraction
    case Start(_) => Extracting
    case Finish(_) => Extracted
    case GiveUp(_) => Failed
    case Recover(_) => Failed
    case MarkReady(_) => NeedsReview
    case Validate(_) => Validated
    case Reject(_) => Rejected
    case Demote(_) => NeedsReview
    case Supersede(_) => Superseded
    case Purge(_) => Purged
  }

  /** Whether the write goes through `update_version_status` and its predecessor predicate. */
  predicate Guarded(op: Op) {
    op.Extract? || op.Retry? || op.Start? || op.Finish? || op.MarkReady? || op.Supersede?
  }

  /** The check made on the status read first. */
  predicate Passes(op: Op, seen: Status) {
    match op
    case Retry(_) => seen == Failed
    case GiveUp(_) => true
    case Recover(_) => seen in {QueuedForExtraction, Extracting}
    case Validate(_) => seen == NeedsReview
    case Reject(_) => seen == NeedsReview
    case Purge(_) => seen != Purged
    case _ => Target(op) in Transitions(seen)
  }

  /** HTTP 202, 503, 409, 404, or the end of a task that answers no request. */
  datatype Reply = Accepted | Busy | Refused | Missing | Done

  /** `at`: where a task's own write stands in the version's history. */
  datatype Task =
    | Reading(op: Op)
    | Writing(op: Op)
    | Putting(op: Op, at: nat)
    | Parsing(version: int)
    | Closed(op: Op, reply: Reply, at: nat)

  /** `history[v]` lists every status committed for v, the current one last. */
  datatype Sys = Sys(history: map<int, seq<Status>>, queue: seq<int>, bound: nat, tasks: map<int, Task>)

  type State = s: Sys | forall v :: v in s.history ==> s.history[v] != [] witness Sys(map[], [], 0, map[])

  function Current(s: State, v: int): Status
    requires v in s.history
  {
    s.history[v][|s.history[v]| - 1]
  }

  function Goes(s: State, t: int, task: Task): State {
    s.(tasks := s.tasks[t := task])
  }

  function Commits(s: State, op: Op): State
    requires op.version in s.history
  {
    s.(history := s.history[op.version := s.history[op.version] + [Target(op)]])
  }

  function Read(s: State, t: int, op: Op): State {
    if op.version !in s.history then Goes(s, t, Closed(op, Missing, 0))
    else if Passes(op, Current(s, op.version)) then Goes(s, t, Writing(op))
    else Goes(s, t, Closed(op, Refused, 0))
  }

  function Write(s: State, t: int, op: Op): State {
    if op.version !in s.history then Goes(s, t, Closed(op, Missing, 0))
    else if Guarded(op) && Current(s, op.version) !in Predecessors(Target(op)) then Goes(s, t, Closed(op, Refused, 0))
    else
      var at := |s.history[op.version]|;
      Goes(Commits(s, op), t,
           if op.Extract? || op.Retry? then Putting(op, at)
           else if op.Start? then Parsing(op.version)
           else Closed(op, Done, at))
  }

  /** `put_nowait`: 202, or 503 when the queue is full. The status is not written back. */
  function Put(s: State, t: int, op: Op, at: nat): State {
    if |s.queue| < s.bound then Goes(s.(queue := s.queue + [op.version]), t, Closed(op, Accepted, at))
    else Goes(s, t, Closed(op, Busy, at))
  }

  /** Requests, scans and workers begin these; the parser's two results are begun by `Parsed` alone. */
  predicate Begins(op: Op) {
    !op.Finish? && !op.GiveUp?
  }

  datatype Event =
    | Begin(task: int, op: Op)
    | Step(task: int)
    | Dequeue(task: int)             // a worker takes the oldest job
    | Parsed(task: int, ok: bool)    // the parser returns

  function Next(s: State, e: Event): State {
    match e
    case Begin(t, op) => if t in s.tasks || !Begins(op) then s else Goes(s, t, Reading(op))
    case Dequeue(t) => if t in s.tasks || s.queue == [] then s else Goes(s.(queue := s.queue[1..]), t, Reading(Start(s.queue[0])))
    case Parsed(t, ok) =>
      if t in s.tasks && s.tasks[t].Parsing? then
        Goes(s, t, Reading(if ok then Finish(s.tasks[t].version) else GiveUp(s.tasks[t].version)))
      else s
    case Step(t) =>
      if t !in s.tasks then s else
      match s.tasks[t]
      case Reading(op) => Read(s, t, op)
      case Writing(op) => Write(s, t, op)
      case Putting(op, at) => Put(s, t, op, at)
      case _ => s
  }

  function Run(s: State, events: seq<Event>): State
    decreases |events|
  {
    if events == [] then s else Run(Next(s, events[0]), events[1..])
  }

  /** The status write an event commits, if it commits one. */
  function Committed(s: State, e: Event): Option<Op> {
    if e.Step? && e.task in s.tasks && s.tasks[e.task].Writing? then
      var op := s.tasks[e.task].op;
      if op.version in s.history && (Guarded(op) ==> Current(s, op.version) in Predecessors(Target(op))) then Some(op) else None
    else None
  }

  predicate Hits(s: State, e: Event, v: int, kind: Op -> bool) {
    Committed(s, e).Some? && Committed(s, e).value.version == v && kind(Committed(s, e).value)
  }

  /** No write of this kind lands on the version during the run. */
  predicate NeverHit(s: State, events: seq<Event>, v: int, kind: Op -> bool)
    decreases |events|
  {
    events == [] || (!Hits(s, events[0], v, kind) && NeverHit(Next(s, events[0]), events[1..], v, kind))
  }

  lemma HistoryStep(s: State, e: Event, v: int)
    requires v in s.history
    ensures v in Next(s, e).history
    ensures Next(s, e).history[v] ==
              if Committed(s, e).Some? && Committed(s, e).value.version == v
              then s.history[v] + [Target(Committed(s, e).value)] else s.history[v]
  {
    hide Transitions, Predecessors, Passes, Guarded;
  }

  /** Histories only grow, at their end. */
  lemma {:induction false} HistoryGrows(s: State, events: seq<Event>, v: int)
    requires v in s.history
    ensures v in Run(s, events).history && s.history[v] <= Run(s, events).history[v]
    decreases |events|
  {
    hide Next, Committed;
    if events != [] {
      HistoryStep(s, events[0], v);
      HistoryGrows(Next(s, events[0]), events[1..], v);
    }
  }

  lemma {:induction false} RunThen(s: State, events: seq<Event>, e: Event)
    ensures Run(s, events + [e]) == Next(Run(s, events), e)
    decreases |events|
  {
    if events == [] {
      assert ([e])[1..] == [];
    } else {
      assert (events + [e])[1..] == events[1..] + [e];
      RunThen(Next(s, events[0]), events[1..], e);
    }
  }

  // ----- Legality of the committed statuses -----

  ghost predicate AllLegal(s: State) {
    forall v :: v in s.history ==> IsRun(s.history[v])
  }

  /** An unguarded write finds the version in a state the guard of `update_version_status` would let through. */
  predicate FindsPredecessor(s: State, e: Event) {
    if e.Step? && e.task in s.tasks && s.tasks[e.task].Writing? then
      var op := s.tasks[e.task].op;
      !Guarded(op) && op.version in s.history ==> Current(s, op.version) in Predecessors(Target(op))
    else true
  }

  predicate AllFindPredecessors(s: State, events: seq<Event>)
    decreases |events|
  {
    events == [] || (FindsPredecessor(s, events[0]) && AllFindPredecessors(Next(s, events[0]), events[1..]))
  }

  lemma ExtendRun(path: seq<Status>, target: Status)
    requires path != []
    ensures IsRun(path + [target]) <==> IsRun(path) && target in Transitions(path[|path| - 1])
  {
    var longer := path + [target];
    assert forall i :: 0 <= i < |path| ==> longer[i] == path[i];
    if IsRun(longer) {
      assert longer[|path| - 1 + 1] in Transitions(longer[|path| - 1]);
      forall i | 0 <= i < |path| - 1
        ensures path[i + 1] in Transitions(path[i])
      {
        assert longer[i + 1] in Transitions(longer[i]);
      }
    }
  }

  lemma StepLegal(s: State, e: Event)
    ensures AllLegal(Next(s, e)) <==> AllLegal(s) && FindsPredecessor(s, e)
  {
    if e.Step? && e.task in s.tasks && s.tasks[e.task].Writing? {
      var op := s.tasks[e.task].op;
      if op.version in s.history && (Guarded(op) ==> Current(s, op.version) in Predecessors(Target(op))) {
        var path := s.history[op.version];
        ExtendRun(path, Target(op));
        var after := Next(s, e).history;
        assert after[op.version] == path + [Target(op)];
        assert forall v :: v in s.history && v != op.version ==> after[v] == s.history[v];
      } else {
        assert Next(s, e).history == s.history;
      }
    } else {
      assert Next(s, e).history == s.history;
    }
  }

  /**
    Every interleaving of any number of tasks: all committed histories are runs of the state machine
    if and only if each unguarded write found the version in one of its target's predecessors.
   */
  lemma {:induction false} LegalIffPredecessorsFound(s: State, events: seq<Event>)
    requires AllLegal(s)
    ensures AllLegal(Run(s, events)) <==> AllFindPredecessors(s, events)
    decreases |events|
  {
    if events != [] {
      StepLegal(s, events[0]);
      if FindsPredecessor(s, events[0]) {
        LegalIffPredecessorsFound(Next(s, events[0]), events[1..]);
      } else {
        IllegalStays(Next(s, events[0]), events[1..]);
      }
    }
  }

  lemma {:induction false} IllegalStays(s: State, events: seq<Event>)
    requires !AllLegal(s)
    ensures !AllLegal(Run(s, events))
    decreases |events|
  {
    if events != [] {
      StepLegal(s, events[0]);
      IllegalStays(Next(s, events[0]), events[1..]);
    }
  }

  /** Only writers that go through `update_version_status`, now and later. */
  ghost predicate OnlyGuarded(s: State, events: seq<Event>) {
    && (forall t :: t in s.tasks && s.tasks[t].Reading? ==> Guarded(s.tasks[t].op))
    && (forall t :: t in s.tasks && s.tasks[t].Writing? ==> Guarded(s.tasks[t].op))
    && (forall i :: 0 <= i < |events| ==> (events[i].Begin? ==> Guarded(events[i].op)) && (events[i].Parsed? ==> events[i].ok))
  }

  /** Read, check, guarded write: no schedule of such writers commits an illegal transition. */
  lemma {:induction false} GuardedWritersAreLegal(s: State, events: seq<Event>)
    requires AllLegal(s) && OnlyGuarded(s, events)
    ensures AllLegal(Run(s, events))
    decreases |events|
  {
    if events != [] {
      StepLegal(s, events[0]);
      assert forall i :: 0 <= i < |events[1..]| ==> events[1..][i] == events[i + 1];
      assert (events[0].Begin? ==> Guarded(events[0].op)) && (events[0].Parsed? ==> events[0].ok);
      GuardedWritersAreLegal(Next(s, events[0]), events[1..]);
    }
  }

  // ----- No two submissions share a way into the queue -----

  /** The position in the version's history of the QUEUED_FOR_EXTRACTION a submission wrote itself. */
  predicate HasTicket(task: Task) {
    task.Putting? || (task.Closed? && (task.reply.Accepted? || task.reply.Busy?))
  }

  ghost predicate QueueEntries(path: seq<Status>) {
    forall j :: 0 < j < |path| ==>
      path[j] !in {Uploaded, Hashed, Stored} && (path[j] == QueuedForExtraction ==> path[j - 1] in {Stored, Failed})
  }

  ghost predicate Ticketed(s: State, t: int) {
    t in s.tasks && HasTicket(s.tasks[t]) ==>
      && s.tasks[t].op.version in s.history
      && 0 < s.tasks[t].at < |s.history[s.tasks[t].op.version]|
      && s.history[s.tasks[t].op.version][s.tasks[t].at] == QueuedForExtraction
  }

  ghost predicate Disjoint(s: State, t: int, u: int) {
    (t in s.tasks && u in s.tasks && t != u && HasTicket(s.tasks[t]) && HasTicket(s.tasks[u])
     && s.tasks[t].op.version == s.tasks[u].op.version) ==> s.tasks[t].at != s.tasks[u].at
  }

  ghost predicate SubmissionsApart(s: State) {
    && |s.queue| <= s.bound
    && (forall v :: v in s.history ==> QueueEntries(s.history[v]))
    && (forall t :: Ticketed(s, t))
    && (forall t, u :: Disjoint(s, t, u))
  }

  lemma WriteKeepsEntries(s: State, op: Op)
    requires op.version in s.history && QueueEntries(s.history[op.version])
    requires Guarded(op) ==> Current(s, op.version) in Predecessors(Target(op))
    ensures QueueEntries(s.history[op.version] + [Target(op)])
  {
  }

  lemma WriteApart(s: State, t: int)
    requires SubmissionsApart(s) && t in s.tasks && s.tasks[t].Writing?
    ensures SubmissionsApart(Next(s, Step(t)))
  {
    var op := s.tasks[t].op;
    var after := Next(s, Step(t));
    if op.version in s.history && (Guarded(op) ==> Current(s, op.version) in Predecessors(Target(op))) {
      WriteKeepsEntries(s, op);
    }
    hide Transitions, Predecessors, QueueEntries, Passes;
    forall u
      ensures Ticketed(after, u)
    {
      assert Ticketed(s, u);
    }
    forall u, w
      ensures Disjoint(after, u, w)
    {
      assert Disjoint(s, u, w) && Ticketed(s, u) && Ticketed(s, w);
    }
  }

  /** After an event that is no write the histories are the same, the queue is within its bound, and t's ticket is an old one. */
  lemma NoWrite(s: State, e: Event, t: int)
    requires |s.queue| <= s.bound && !(e.Step? && e.task in s.tasks && s.tasks[e.task].Writing?)
    ensures Next(s, e).history == s.history && |Next(s, e).queue| <= Next(s, e).bound
    ensures t in Next(s, e).tasks && HasTicket(Next(s, e).tasks[t]) ==>
              && t in s.tasks && HasTicket(s.tasks[t])
              && s.tasks[t].op == Next(s, e).tasks[t].op && s.tasks[t].at == Next(s, e).tasks[t].at
  {
    hide Passes, Transitions, Predecessors, Guarded;
  }

  lemma StepApart(s: State, e: Event)
    requires SubmissionsApart(s)
    ensures SubmissionsApart(Next(s, e))
  {
    hide Next, QueueEntries, HasTicket;
    if e.Step? && e.task in s.tasks && s.tasks[e.task].Writing? {
      WriteApart(s, e.task);
    } else {
      var after := Next(s, e);
      NoWrite(s, e, e.task);
      forall u
        ensures Ticketed(after, u)
      {
        NoWrite(s, e, u);
        assert Ticketed(s, u);
      }
      forall u, w
        ensures Disjoint(after, u, w)
      {
        NoWrite(s, e, u);
        NoWrite(s, e, w);
        assert Disjoint(s, u, w);
      }
    }
  }

  lemma {:induction false} RunApart(s: State, events: seq<Event>)
    requires SubmissionsApart(s)
    ensures SubmissionsApart(Run(s, events))
    decreases |events|
  {
    if events != [] {
      StepApart(s, events[0]);
      RunApart(Next(s, events[0]), events[1..]);
    }
  }

  predicate Initial(s: State) {
    s.tasks == map[] && s.queue == [] && forall v :: v in s.history ==> |s.history[v]| == 1
  }

  /**
    Whatever the interleaving of submissions, workers, recovery scans, reviewers and purges, guarded or
    not: between two entries of a version into QUEUED_FOR_EXTRACTION it was FAILED.
   */
  lemma FailedBetweenQueueings(s: State, events: seq<Event>, v: int, i: nat, j: nat) returns (k: nat)
    requires Initial(s) && v in Run(s, events).history && i < j < |Run(s, events).history[v]|
    requires Run(s, events).history[v][i] == Run(s, events).history[v][j] == QueuedForExtraction
    ensures i < k < j && Run(s, events).history[v][k] == Failed
  {
    RunApart(s, events);
    var path := Run(s, events).history[v];
    assert QueueEntries(path) && path[j - 1] in {Stored, Failed};
    k := j - 1;
  }

  /**
    Two submissions of one version that both got their 202 wrote the status at different times, with a
    failure in between; so of simultaneous submissions at most one is accepted. The queue never
    exceeds its bound.
   */
  lemma AcceptedOnce(s: State, events: seq<Event>, t: int, u: int) returns (k: nat)
    requires Initial(s) && t != u && t in Run(s, events).tasks && u in Run(s, events).tasks
    requires var a, b := Run(s, events).tasks[t], Run(s, events).tasks[u];
             a.Closed? && b.Closed? && a.reply == b.reply == Accepted && a.op.version == b.op.version && a.at <= b.at
    ensures var end := Run(s, events);
            && end.tasks[t].op.version in end.history
            && end.tasks[t].at < k < end.tasks[u].at < |end.history[end.tasks[t].op.version]|
            && end.history[end.tasks[t].op.version][k] == Failed
            && |end.queue| <= end.bound
  {
    RunApart(s, events);
    var end := Run(s, events);
    assert Disjoint(end, t, u) && Ticketed(end, t) && Ticketed(end, u);
    k := FailedBetweenQueueings(s, events, end.tasks[t].op.version, end.tasks[t].at, end.tasks[u].at);
  }

  // ----- A full queue strands the version -----

  /** QUEUED_FOR_EXTRACTION, but no job of it is queued and nobody is extracting it. */
  ghost predicate Stranded(s: State, v: int) {
    && v in s.history && Current(s, v) == QueuedForExtraction && v !in s.queue
    && forall t :: t in s.tasks ==> Harmless(s.tasks[t], v)
  }

  /** A task that will leave the queued version alone, unless it is one of those that release it. */
  predicate Harmless(task: Task, v: int) {
    match task
    case Reading(op) => op.version == v ==> !op.GiveUp?
    case Writing(op) => op.version == v ==> Releases(op)
    case Putting(op, at) => op.version != v
    case Parsing(version) => version != v
    case Closed(_, _, _) => true
  }

  /** A recovery scan, a purge, or an extraction that is started without a job. */
  predicate Releases(op: Op) {
    op.Recover? || op.Purge? || op.Start?
  }

  /** Only a releasing operation passes its check on a stranded version, and its write lands. */
  lemma ReleaseLands(s: State, t: int, v: int)
    requires Stranded(s, v) && t in s.tasks && (s.tasks[t].Reading? || s.tasks[t].Writing?) && s.tasks[t].op.version == v
    ensures s.tasks[t].Reading? && Passes(s.tasks[t].op, QueuedForExtraction) ==> Releases(s.tasks[t].op)
    ensures s.tasks[t].Writing? ==> Hits(s, Step(t), v, Releases)
  {
    assert Harmless(s.tasks[t], v);
  }

  /** Only its own step and its parser's return move a task; a new one reads. */
  lemma OtherTaskHarmless(s: State, e: Event, v: int, t: int)
    requires v !in s.queue && !(t in s.tasks && (e == Step(t) || (e.Parsed? && e.task == t)))
    ensures t in s.tasks ==> t in Next(s, e).tasks && Next(s, e).tasks[t] == s.tasks[t]
    ensures t !in s.tasks && t in Next(s, e).tasks ==> Harmless(Next(s, e).tasks[t], v) && Next(s, e).tasks[t].Reading?
  {
    hide Transitions, Predecessors, Passes, Guarded, Releases;
  }

  /** A task's own step, or its parser's return, leaves it harmless; one on v that ends is refused. */
  lemma MovedTaskHarmless(s: State, e: Event, v: int, t: int)
    requires Stranded(s, v) && !Hits(s, e, v, Releases) && t in s.tasks && (e == Step(t) || (e.Parsed? && e.task == t))
    ensures t in Next(s, e).tasks && Harmless(Next(s, e).tasks[t], v)
    ensures Answers(Next(s, e), t, v) || Answers(s, t, v) ==>
              if Answers(s, t, v) then Next(s, e).tasks[t] == s.tasks[t] else Next(s, e).tasks[t].reply == Refused
  {
    hide Transitions, Predecessors, Passes, Hits, Releases, Guarded;
    assert Harmless(s.tasks[t], v);
    if (s.tasks[t].Reading? || s.tasks[t].Writing?) && s.tasks[t].op.version == v {
      ReleaseLands(s, t, v);
    }
  }

  lemma TaskStaysHarmless(s: State, e: Event, v: int, t: int)
    requires Stranded(s, v) && !Hits(s, e, v, Releases)
    ensures t in s.tasks ==> t in Next(s, e).tasks
    ensures t in Next(s, e).tasks ==> Harmless(Next(s, e).tasks[t], v)
    ensures Answers(Next(s, e), t, v) || Answers(s, t, v) ==>
              if Answers(s, t, v) then Next(s, e).tasks[t] == s.tasks[t] else Next(s, e).tasks[t].reply == Refused
  {
    hide Next, Hits, Harmless, Releases;
    if t in s.tasks && (e == Step(t) || (e.Parsed? && e.task == t)) {
      MovedTaskHarmless(s, e, v, t);
    } else {
      OtherTaskHarmless(s, e, v, t);
    }
  }

  lemma StepStranded(s: State, e: Event, v: int)
    requires Stranded(s, v) && !Hits(s, e, v, Releases)
    ensures Stranded(Next(s, e), v) && Next(s, e).history[v] == s.history[v]
    ensures RefusedSince(s, Next(s, e), v)
  {
    hide Transitions, Predecessors, Passes, Hits, Releases, Harmless;
    NotQueuedNext(s, e, v);
    forall t {
      TaskStaysHarmless(s, e, v, t);
    }
  }

  /** No job of a stranded version appears, and its status stays. */
  lemma NotQueuedNext(s: State, e: Event, v: int)
    requires Stranded(s, v) && !Hits(s, e, v, Releases)
    ensures v !in Next(s, e).queue && v in Next(s, e).history && Next(s, e).history[v] == s.history[v]
  {
    hide Transitions, Predecessors, Passes, Releases;
    HistoryStep(s, e, v);
    if e.Step? && e.task in s.tasks {
      assert Harmless(s.tasks[e.task], v);
      if s.tasks[e.task].Writing? && s.tasks[e.task].op.version == v {
        ReleaseLands(s, e.task, v);
      }
    }
  }

  predicate Answers(s: State, t: int, v: int) {
    t in s.tasks && s.tasks[t].Closed? && s.tasks[t].op.version == v
  }

  /** Tasks on v that had ended did not change; those that ended since were refused. */
  ghost predicate RefusedSince(s: State, end: State, v: int) {
    forall t :: Answers(end, t, v) || Answers(s, t, v) ==>
      if Answers(s, t, v) then t in end.tasks && end.tasks[t] == s.tasks[t] else end.tasks[t].reply == Refused
  }

  /**
    The 503 asks the client to resubmit shortly. Over every run, whatever begins in it, a stranded version keeps its
    status if and only if no recovery scan, purge or jobless start writes it; until one does, every submission of it,
    and every other task on it that ends, is refused.
   */
  lemma {:induction false} StrandedUntilReleased(s: State, events: seq<Event>, v: int)
    requires Stranded(s, v)
    ensures v in Run(s, events).history
    ensures Run(s, events).history[v] == s.history[v] <==> NeverHit(s, events, v, Releases)
    ensures NeverHit(s, events, v, Releases) ==> Stranded(Run(s, events), v) && RefusedSince(s, Run(s, events), v)
    decreases |events|
  {
    hide Next, Stranded, Releases, Committed;
    if events != [] {
      var middle := Next(s, events[0]);
      StrandedIsListed(s, v);
      HistoryStep(s, events[0], v);
      if Hits(s, events[0], v, Releases) {
        HistoryGrows(middle, events[1..], v);
      } else {
        StepStranded(s, events[0], v);
        StrandedUntilReleased(middle, events[1..], v);
      }
    } else {
      StrandedIsListed(s, v);
    }
  }

  lemma StrandedIsListed(s: State, v: int)
    requires Stranded(s, v)
    ensures v in s.history && v !in s.queue
  {
  }

  /** No task is about to release v. */
  ghost predicate NoneReleasing(s: State, v: int) {
    forall t :: t in s.tasks ==> !Releasing(s.tasks[t], v)
  }

  predicate Releasing(task: Task, v: int) {
    (task.Reading? || task.Writing?) && task.op.version == v && Releases(task.op)
  }

  /** No scan finds v, nobody purges it and no extraction of it is started without a job. */
  ghost predicate BeginNoRelease(events: seq<Event>, v: int) {
    forall i :: 0 <= i < |events| && events[i].Begin? && events[i].op.version == v ==> !Releases(events[i].op)
  }

  lemma StepNoneReleasing(s: State, e: Event, v: int)
    requires NoneReleasing(s, v) && v !in s.queue
    requires e.Begin? && e.op.version == v ==> !Releases(e.op)
    ensures NoneReleasing(Next(s, e), v) && !Hits(s, e, v, Releases)
  {
    hide Transitions, Predecessors, Passes, Guarded;
    forall t | t in Next(s, e).tasks
      ensures !Releasing(Next(s, e).tasks[t], v)
    {
      if t in s.tasks {
        assert !Releasing(s.tasks[t], v);
      }
    }
    if e.Step? && e.task in s.tasks {
      assert !Releasing(s.tasks[e.task], v);
    }
  }

  /**
    A condition on the schedule: while no scan finds the stranded version, nobody purges it and nobody starts it inline,
    its status stays, whoever submits it and however often, and all of these are refused.
   */
  lemma {:induction false} StrandedWhileUnscanned(s: State, events: seq<Event>, v: int)
    requires Stranded(s, v) && NoneReleasing(s, v) && BeginNoRelease(events, v)
    ensures NeverHit(s, events, v, Releases)
    ensures v in Run(s, events).history && Run(s, events).history[v] == s.history[v]
    ensures Stranded(Run(s, events), v) && RefusedSince(s, Run(s, events), v)
    decreases |events|
  {
    hide Next, Stranded, NoneReleasing, Releases, Hits, RefusedSince, Run;
    if events != [] {
      StrandedIsListed(s, v);
      assert forall i :: 0 <= i < |events[1..]| ==> events[1..][i] == events[i + 1];
      StepNoneReleasing(s, events[0], v);
      StepStranded(s, events[0], v);
      StrandedWhileUnscanned(Next(s, events[0]), events[1..], v);
    }
    StrandedUntilReleased(s, events, v);
  }

  lemma RunThree(s: State, a: Event, b: Event, c: Event)
    ensures Run(s, [a, b, c]) == Next(Next(Next(s, a), b), c)
  {
    RunThen(s, [], a);
    RunThen(s, [a], b);
    RunThen(s, [a, b], c);
    assert [] + [a] == [a] && [a] + [b] == [a, b] && [a, b] + [c] == [a, b, c];
  }

  /**
    A scan that finds a queued version, and that nobody interrupts, takes it to FAILED, whether or not it has a job. Which
    versions a scan finds is the subject of StuckScan.
   */
  lemma RecoveryFails(s: State, t: int, v: int)
    requires v in s.history && Current(s, v) == QueuedForExtraction && t !in s.tasks
    ensures var end := Run(s, [Begin(t, Recover(v)), Step(t), Step(t)]);
            && end.history == s.history[v := s.history[v] + [Failed]]
            && end.queue == s.queue && end.bound == s.bound && end.tasks.Keys == s.tasks.Keys + {t}
  {
    hide Run, Predecessors, Transitions;
    RunThree(s, Begin(t, Recover(v)), Step(t), Step(t));
    var reading := Goes(s, t, Reading(Recover(v)));
    var writing := Goes(reading, t, Writing(Recover(v)));
    assert Next(s, Begin(t, Recover(v))) == reading && reading.tasks[t] == Reading(Recover(v));
    assert Next(reading, Step(t)) == writing && writing.tasks[t] == Writing(Recover(v));
  }

  // ----- What the unguarded writes allow -----

  /** A status on which a writer's own check passes is a predecessor of its target, but for failures and purges. */
  lemma CheckedStatusIsPredecessor(op: Op, seen: Status)
    requires Passes(op, seen)
    ensures !op.GiveUp? && !op.Purge? ==> seen in Predecessors(Target(op))
    ensures op.GiveUp? ==> (seen in Predecessors(Target(op)) <==>
              seen in {Uploaded, Hashed, Stored, QueuedForExtraction, Extracting, Extracted, SemanticReady})
    ensures op.Purge? ==> (seen in Predecessors(Target(op)) <==>
              seen in {DuplicateDetected, Validated, Rejected, Superseded, Failed})
  {
  }

  /** A guarded writer's check is no stricter than its guard, but for a retry, which starts from FAILED only. */
  lemma GuardedCheckIsPredecessor(op: Op, seen: Status)
    requires Guarded(op)
    ensures Passes(op, seen) <==> seen in Predecessors(Target(op)) && (op.Retry? ==> seen == Failed)
  {
  }

  /** What each writer makes of a status nobody else changes, written out; None where it is refused. */
  function Effect(op: Op, seen: Status): Option<Status> {
    match op
    case Extract(_) => if seen in {Stored, Failed} then Some(QueuedForExtraction) else None
    case Retry(_) => if seen == Failed then Some(QueuedForExtraction) else None
    case Start(_) => if seen in {Stored, QueuedForExtraction, Failed} then Some(Extracting) else None
    case Finish(_) => if seen == Extracting then Some(Extracted) else None
    case GiveUp(_) => Some(Failed)
    case Recover(_) => if seen in {QueuedForExtraction, Extracting} then Some(Failed) else None
    case MarkReady(_) => if seen in {Extracted, SemanticReady, Validated, Rejected} then Some(NeedsReview) else None
    case Validate(_) => if seen == NeedsReview then Some(Validated) else None
    case Reject(_) => if seen == NeedsReview then Some(Rejected) else None
    case Demote(_) => if seen in {Extracted, SemanticReady, Validated, Rejected} then Some(NeedsReview) else None
    case Supersede(_) => if seen == Validated then Some(Superseded) else None
    case Purge(_) => if seen == Status.Purged then None else Some(Status.Purged)
  }

  /** A task that reads and writes undisturbed has that effect: the status is appended, or the task is refused and nothing changes. */
  lemma UndisturbedTask(s: State, t: int, op: Op)
    requires op.version in s.history && t in s.tasks && s.tasks[t] == Reading(op)
    ensures var read := Next(s, Step(t));
            var end := Next(read, Step(t));
            && t in end.tasks && end.queue == s.queue
            && match Effect(op, Current(s, op.version))
               case None => end.history == s.history && end.tasks == s.tasks[t := Closed(op, Refused, 0)]
               case Some(status) => end.history == s.history[op.version := s.history[op.version] + [status]] && end.tasks[t] != Closed(op, Refused, 0)
  {
    hide Effect, Passes, Transitions, Predecessors, Target, Guarded;
    EffectIsCheck(op, Current(s, op.version));
    var read := Next(s, Step(t));
    if Effect(op, Current(s, op.version)).Some? {
      assert read.tasks[t] == Writing(op) && Current(read, op.version) == Current(s, op.version);
    } else {
      assert read.tasks[t] == Closed(op, Refused, 0);
    }
  }

  lemma EffectIsCheck(op: Op, seen: Status)
    ensures Effect(op, seen) == if Passes(op, seen) then Some(Target(op)) else None
    ensures Passes(op, seen) && Guarded(op) ==> seen in Predecessors(Target(op))
  {
  }

  /** When others wrote in between: guarded writes land on a predecessor of their target only, all others land on anything. */
  lemma WriteAfterOthers(s: State, t: int, op: Op)
    requires op.version in s.history && t in s.tasks && s.tasks[t] == Writing(op)
    ensures op.Validate? || op.Reject? || op.Demote? || op.GiveUp? || op.Recover? || op.Purge? ==>
              Next(s, Step(t)).history == s.history[op.version := s.history[op.version] + [Target(op)]]
    ensures op.Extract? || op.Retry? || op.Start? || op.Finish? || op.MarkReady? || op.Supersede? ==>
              Next(s, Step(t)).history == if Target(op) in Transitions(Current(s, op.version))
                                          then s.history[op.version := s.history[op.version] + [Target(op)]] else s.history
  {
    hide Transitions;
  }

  // ----- The queue -----

  /** The version whose job an event puts on the queue: a submission's last step, if there is room. */
  function PutBy(s: State, e: Event): seq<int> {
    if e.Step? && e.task in s.tasks && s.tasks[e.task].Putting? && |s.queue| < s.bound then [s.tasks[e.task].op.version] else []
  }

  /** The version a worker's new task starts to extract. */
  function TakenBy(s: State, e: Event): seq<int> {
    var after := Next(s, e).tasks;
    if e.Dequeue? && e.task !in s.tasks && e.task in after && after[e.task].Reading? && after[e.task].op.Start?
    then [after[e.task].op.version] else []
  }

  function Puts(s: State, events: seq<Event>): seq<int>
    decreases |events|
  {
    if events == [] then [] else PutBy(s, events[0]) + Puts(Next(s, events[0]), events[1..])
  }

  function Takes(s: State, events: seq<Event>): seq<int>
    decreases |events|
  {
    if events == [] then [] else TakenBy(s, events[0]) + Takes(Next(s, events[0]), events[1..])
  }

  lemma QueueStep(s: State, e: Event)
    ensures s.queue + PutBy(s, e) == TakenBy(s, e) + Next(s, e).queue
  {
    hide Transitions, Predecessors, Passes, Guarded;
    if e.Dequeue? && e.task !in s.tasks && s.queue != [] {
      assert s.queue == [s.queue[0]] + s.queue[1..];
    }
  }

  /** Over every run: workers start on jobs in the order in which they were put, no job is lost and none is started twice. */
  lemma {:induction false} QueueIsFifo(s: State, events: seq<Event>)
    ensures s.queue + Puts(s, events) == Takes(s, events) + Run(s, events).queue
    decreases |events|
  {
    hide Next, PutBy, TakenBy;
    if events != [] {
      var next, rest := Next(s, events[0]), events[1..];
      QueueStep(s, events[0]);
      QueueIsFifo(next, rest);
      assert s.queue + (PutBy(s, events[0]) + Puts(next, rest)) == (s.queue + PutBy(s, events[0])) + Puts(next, rest);
      assert TakenBy(s, events[0]) + next.queue + Puts(next, rest) == TakenBy(s, events[0]) + (next.queue + Puts(next, rest));
    }
  }

  predicate IsFailure(op: Op) {
    op.GiveUp? || op.Recover?
  }

  lemma ReviewedStep(s: State, e: Event, v: int)
    requires v in s.history && Current(s, v) in PAST_REVIEW
    ensures v in Next(s, e).history
    ensures Current(Next(s, e), v) in PAST_REVIEW <==> !Hits(s, e, v, IsFailure)
  {
    hide Passes, Next;
    HistoryStep(s, e, v);
  }

  /**
    Over every interleaving: a version that reached review stays among the reviewed statuses if and only if no failure,
    of a parser or of the recovery scan, is written to it.
   */
  lemma {:induction false} ReviewHolds(s: State, events: seq<Event>, v: int)
    requires v in s.history && Current(s, v) in {NeedsReview, Validated, Rejected, Superseded, Status.Purged}
    ensures v in Run(s, events).history
    ensures (forall n :: |s.history[v]| - 1 <= n < |Run(s, events).history[v]| ==> Run(s, events).history[v][n] in PAST_REVIEW)
       <==> NeverHit(s, events, v, IsFailure)
    decreases |events|
  {
    hide Next, Committed, Transitions, Predecessors;
    if events != [] {
      var middle := Next(s, events[0]);
      HistoryStep(s, events[0], v);
      ReviewedStep(s, events[0], v);
      HistoryGrows(middle, events[1..], v);
      var before, now, after := s.history[v], middle.history[v], Run(s, events).history[v];
      assert now[|before| - 1] == before[|before| - 1] && after[|before| - 1] == now[|before| - 1];
      if Hits(s, events[0], v, IsFailure) {
        assert after[|now| - 1] == now[|now| - 1];
      } else {
        ReviewHolds(middle, events[1..], v);
      }
    }
  }

  /** In particular on legal histories. */
  lemma LegalRunsKeepReview(s: State, events: seq<Event>, v: int, k: nat, n: nat)
    requires AllLegal(s) && AllFindPredecessors(s, events) && v in Run(s, events).history
    requires k <= n < |Run(s, events).history[v]| && Run(s, events).history[v][k] in PAST_REVIEW
    ensures Run(s, events).history[v][n] in PAST_REVIEW
  {
    LegalIffPredecessorsFound(s, events);
    ReviewIsNeverLeft(Run(s, events).history[v], k, n);
  }
}
