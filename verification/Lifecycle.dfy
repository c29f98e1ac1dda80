/**
  The lifecycle state machine of a document version: the transition table, its loop-built converse
  that guards every catalog UPDATE, and what all its runs have in common.
 */
module Lifecycle {
  datatype Status =
    | Uploaded | Hashed | DuplicateDetected | Stored | QueuedForExtraction | Extracting | Extracted
    | SemanticReady | NeedsReview | Validated | Rejected | Failed | Superseded | Purged

  const STATUSES: set<Status> := set s: Status | true

  /** ALLOWED_TRANSITIONS. */
  function Transitions(current: Status): set<Status> {
    match current
    case Uploaded => {Stored, Failed}
    case Hashed => {Stored, Failed}
    case Stored => {Extracting, QueuedForExtraction, Failed}
    case QueuedForExtraction => {Extracting, Failed}
    case Extracting => {Extracted, Failed}
    case Extracted => {SemanticReady, NeedsReview, Failed}
    case SemanticReady => {NeedsReview, Failed}
    case NeedsReview => {Validated, Rejected}
    case DuplicateDetected => {Purged}
    case Validated => {NeedsReview, Superseded, Purged}
    case Rejected => {NeedsReview, Purged}
    case Superseded => {Purged}
    case Failed => {Extracting, QueuedForExtraction, Purged}
    case Purged => {Purged}
  }

  /** ALLOWED_PREDECESSORS: the states `target` can be reached from. */
  function Predecessors(target: Status): (p: set<Status>)
    ensures forall s :: s in p <==> target in Transitions(s)
  {
    set s | s in STATUSES && target in Transitions(s)
  }

  /** The guards of the catalog's UPDATE statements, written out. */
  function Guard(target: Status): set<Status> {
    match target
    case Uploaded => {}
    case Hashed => {}
    case DuplicateDetected => {}
    case Stored => {Uploaded, Hashed}
    case QueuedForExtraction => {Stored, Failed}
    case Extracting => {Stored, QueuedForExtraction, Failed}
    case Extracted => {Extracting}
    case SemanticReady => {Extracted}
    case NeedsReview => {Extracted, SemanticReady, Validated, Rejected}
    case Validated => {NeedsReview}
    case Rejected => {NeedsReview}
    case Failed => {Uploaded, Hashed, Stored, QueuedForExtraction, Extracting, Extracted, SemanticReady}
    case Superseded => {Validated}
    case Purged => {DuplicateDetected, Validated, Rejected, Superseded, Failed, Purged}
  }

  lemma EdgeIsGuarded(current: Status, target: Status)
    ensures target in Transitions(current) <==> current in Guard(target)
  {
  }

  lemma PredecessorsWrittenOut(target: Status)
    ensures Predecessors(target) == Guard(target)
  {
    hide Transitions, Guard;
    forall current
      ensures current in Predecessors(target) <==> current in Guard(target)
    {
      EdgeIsGuarded(current, target);
    }
  }

  /** Reverses the transition table edge by edge, as the module does once at import time. */
  method BuildAllowedPredecessors() returns (predecessors: map<Status, set<Status>>)
    ensures forall target :: target in predecessors && predecessors[target] == Predecessors(target)
  {
    predecessors := map s | s in STATUSES :: {};
    var rest := STATUSES;
    while rest != {}
      invariant forall target :: target in predecessors
      invariant forall target, s :: s in predecessors[target] <==> s !in rest && target in Transitions(s)
      decreases rest
    {
      var current :| current in rest;
      predecessors := AddSources(predecessors, current);
      rest := rest - {current};
    }
  }

  /** The inner loop: enters `current` under each of its targets. */
  method AddSources(before: map<Status, set<Status>>, current: Status) returns (after: map<Status, set<Status>>)
    requires forall target :: target in before
    ensures forall target :: target in after
    ensures forall target :: after[target] ==
              if target in Transitions(current) then before[target] + {current} else before[target]
  {
    after := before;
    var targets := Transitions(current);
    while targets != {}
      invariant targets <= Transitions(current)
      invariant forall target :: target in after
      invariant forall target :: after[target] ==
                  if target in Transitions(current) - targets then before[target] + {current} else before[target]
      decreases targets
    {
      var target :| target in targets;
      after := after[target := after[target] + {current}];
      targets := targets - {target};
    }
  }

  // ----- Runs of the state machine -----

  predicate IsRun(path: seq<Status>) {
    path != [] && forall i :: 0 <= i < |path| - 1 ==> path[i + 1] in Transitions(path[i])
  }

  predicate IsRetry(a: Status, b: Status) {
    a == Failed && b in {Extracting, QueuedForExtraction}
  }

  predicate IsDemotion(a: Status, b: Status) {
    a in {Validated, Rejected} && b == NeedsReview
  }

  predicate IsRepurge(a: Status, b: Status) {
    a == Purged && b == Purged
  }

  /** How many edges of the path satisfy `edge`. */
  function Count(path: seq<Status>, edge: (Status, Status) -> bool): nat {
    if |path| < 2 then 0
    else (if edge(path[0], path[1]) then 1 else 0) + Count(path[1..], edge)
  }

  function Bonus(path: seq<Status>): nat {
    5 * Count(path, IsRetry) + 2 * Count(path, IsDemotion) + Count(path, IsRepurge)
  }

  /** The potential: it drops on every edge but the retries, demotions and re-purges. */
  function Rank(s: Status): nat {
    match s
    case Uploaded => 9
    case Hashed => 9
    case Stored => 8
    case QueuedForExtraction => 7
    case Extracting => 6
    case Extracted => 5
    case SemanticReady => 4
    case NeedsReview => 3
    case Failed => 3
    case Validated => 2
    case Rejected => 2
    case Superseded => 1
    case DuplicateDetected => 1
    case Purged => 0
  }

  lemma {:induction false} PotentialPaysForRun(path: seq<Status>)
    requires IsRun(path)
    ensures |path| - 1 + Rank(path[|path| - 1]) <= Rank(path[0]) + Bonus(path)
  {
    if |path| > 1 {
      var rest := path[1..];
      assert forall i :: 0 <= i < |rest| ==> rest[i] == path[i + 1];
      assert path[1] in Transitions(path[0]);
      PotentialPaysForRun(rest);
    }
  }

  /** r retries, d demotions and s re-purges leave room for at most 9 + 5r + 2d + s transitions. */
  lemma RunLength(path: seq<Status>)
    requires IsRun(path)
    ensures |path| - 1 <= 9 + 5 * Count(path, IsRetry) + 2 * Count(path, IsDemotion) + Count(path, IsRepurge)
  {
    PotentialPaysForRun(path);
  }

  function PurgedTail(s: nat): seq<Status> {
    if s == 0 then [Purged] else [Purged] + PurgedTail(s - 1)
  }

  function ReviewedTail(d: nat, s: nat): seq<Status> {
    if d == 0 then [Validated] + ([Superseded] + PurgedTail(s))
    else [Validated] + ([NeedsReview] + ReviewedTail(d - 1, s))
  }

  function Extraction(end: seq<Status>): seq<Status> {
    [QueuedForExtraction] + ([Extracting] + ([Extracted] + ([SemanticReady] + end)))
  }

  function QueuedTail(r: nat, d: nat, s: nat): seq<Status> {
    Extraction(if r == 0 then [NeedsReview] + ReviewedTail(d, s) else [Failed] + QueuedTail(r - 1, d, s))
  }

  /** A run from `first` with `length` states that spends r retries, d demotions and s re-purges. */
  predicate Spends(path: seq<Status>, first: Status, r: nat, d: nat, s: nat, length: nat) {
    && IsRun(path) && path[0] == first && |path| == length
    && Count(path, IsRetry) == r && Count(path, IsDemotion) == d && Count(path, IsRepurge) == s
  }

  lemma Prepend(a: Status, path: seq<Status>, first: Status, r: nat, d: nat, s: nat, length: nat)
    requires Spends(path, first, r, d, s, length) && first in Transitions(a)
    ensures Spends([a] + path, a,
                   r + (if IsRetry(a, first) then 1 else 0),
                   d + (if IsDemotion(a, first) then 1 else 0),
                   s + (if IsRepurge(a, first) then 1 else 0), length + 1)
  {
    var longer := [a] + path;
    assert longer[1..] == path;
    assert forall i :: 0 < i < |longer| ==> longer[i] == path[i - 1];
  }

  lemma {:induction false} PurgedTailSpends(s: nat)
    ensures Spends(PurgedTail(s), Purged, 0, 0, s, s + 1)
  {
    if s > 0 {
      PurgedTailSpends(s - 1);
      Prepend(Purged, PurgedTail(s - 1), Purged, 0, 0, s - 1, s);
    }
  }

  lemma {:induction false} ReviewedTailSpends(d: nat, s: nat)
    ensures Spends(ReviewedTail(d, s), Validated, 0, d, s, 2 * d + s + 3)
  {
    hide Spends;
    if d == 0 {
      PurgedTailSpends(s);
      Prepend(Superseded, PurgedTail(s), Purged, 0, 0, s, s + 1);
      Prepend(Validated, [Superseded] + PurgedTail(s), Superseded, 0, 0, s, s + 2);
    } else {
      var tail := ReviewedTail(d - 1, s);
      ReviewedTailSpends(d - 1, s);
      Prepend(NeedsReview, tail, Validated, 0, d - 1, s, 2 * d + s + 1);
      Prepend(Validated, [NeedsReview] + tail, NeedsReview, 0, d - 1, s, 2 * d + s + 2);
    }
  }

  lemma ExtractionSpends(end: seq<Status>, first: Status, r: nat, d: nat, s: nat, length: nat)
    requires Spends(end, first, r, d, s, length) && first in {NeedsReview, Failed}
    ensures Spends(Extraction(end), QueuedForExtraction, r, d, s, length + 4)
  {
    hide Spends;
    Prepend(SemanticReady, end, first, r, d, s, length);
    Prepend(Extracted, [SemanticReady] + end, SemanticReady, r, d, s, length + 1);
    Prepend(Extracting, [Extracted] + ([SemanticReady] + end), Extracted, r, d, s, length + 2);
    Prepend(QueuedForExtraction, [Extracting] + ([Extracted] + ([SemanticReady] + end)), Extracting, r, d, s, length + 3);
  }

  lemma {:induction false} QueuedTailSpends(r: nat, d: nat, s: nat)
    ensures Spends(QueuedTail(r, d, s), QueuedForExtraction, r, d, s, 5 * r + 2 * d + s + 8)
  {
    hide Spends, Extraction, ReviewedTail;
    if r == 0 {
      ReviewedTailSpends(d, s);
      Prepend(NeedsReview, ReviewedTail(d, s), Validated, 0, d, s, 2 * d + s + 3);
      ExtractionSpends([NeedsReview] + ReviewedTail(d, s), NeedsReview, 0, d, s, 2 * d + s + 4);
    } else {
      var tail := QueuedTail(r - 1, d, s);
      QueuedTailSpends(r - 1, d, s);
      Prepend(Failed, tail, QueuedForExtraction, r - 1, d, s, 5 * r + 2 * d + s + 3);
      ExtractionSpends([Failed] + tail, Failed, r, d, s, 5 * r + 2 * d + s + 4);
    }
  }

  /** The bound of RunLength is reached for every r, d and s: it cannot be lowered. */
  lemma RunLengthIsReached(r: nat, d: nat, s: nat) returns (path: seq<Status>)
    ensures IsRun(path) && |path| - 1 == 9 + 5 * r + 2 * d + s
    ensures Count(path, IsRetry) == r && Count(path, IsDemotion) == d && Count(path, IsRepurge) == s
  {
    var n := 5 * r + 2 * d + s;
    QueuedTailSpends(r, d, s);
    Prepend(Stored, QueuedTail(r, d, s), QueuedForExtraction, r, d, s, n + 8);
    Prepend(Uploaded, [Stored] + QueuedTail(r, d, s), Stored, r, d, s, n + 9);
    path := [Uploaded] + ([Stored] + QueuedTail(r, d, s));
  }

  // ----- The review gate -----

  const BEFORE_EXTRACTION: set<Status> := {Uploaded, Hashed, Stored, QueuedForExtraction, Failed}
  const PAST_REVIEW: set<Status> := {NeedsReview, Validated, Rejected, Superseded, Purged}

  /** Path positions i < j < k at which EXTRACTING, EXTRACTED and NEEDS_REVIEW were visited. */
  predicate WentThroughReview(path: seq<Status>, i: nat, j: nat, k: nat) {
    i < j < k < |path| && path[i] == Extracting && path[j] == Extracted && path[k] == NeedsReview
  }

  lemma {:induction false} ReviewGateUpTo(path: seq<Status>, n: nat) returns (i: nat, j: nat, k: nat)
    requires IsRun(path) && path[0] in BEFORE_EXTRACTION && n < |path|
    ensures i <= n && j <= n && k <= n
    ensures path[n] == Extracting ==> i == n
    ensures path[n] in {Extracted, SemanticReady} ==> i < j && path[i] == Extracting && path[j] == Extracted
    ensures path[n] in {NeedsReview, Validated, Rejected, Superseded} ==> WentThroughReview(path, i, j, k)
    ensures path[n] != DuplicateDetected
  {
    if n == 0 {
      i, j, k := 0, 0, 0;
    } else {
      i, j, k := ReviewGateUpTo(path, n - 1);
      assert path[(n - 1) + 1] in Transitions(path[n - 1]);
      match path[n]
      case Extracting => i := n;
      case Extracted => i, j := n - 1, n;
      case NeedsReview => if path[n - 1] in {Extracted, SemanticReady} { k := n; }
      case _ =>
    }
  }

  /** No run from a pre-extraction state reaches VALIDATED without extraction and a pending review. */
  lemma ReviewGate(path: seq<Status>, n: nat) returns (i: nat, j: nat, k: nat)
    requires IsRun(path) && path[0] in {Uploaded, Hashed, Stored, QueuedForExtraction, Failed} && n < |path| && path[n] == Validated
    ensures WentThroughReview(path, i, j, k) && k < n
  {
    i, j, k := ReviewGateUpTo(path, n);
  }

  /** Once a version awaits review, no run takes it back to extraction or to FAILED. */
  lemma {:induction false} ReviewIsNeverLeft(path: seq<Status>, k: nat, n: nat)
    requires IsRun(path) && k <= n < |path| && path[k] in {NeedsReview, Validated, Rejected, Superseded, Purged}
    ensures path[n] in {NeedsReview, Validated, Rejected, Superseded, Purged}
  {
    if k < n {
      ReviewIsNeverLeft(path, k, n - 1);
      assert path[(n - 1) + 1] in Transitions(path[n - 1]);
    }
  }
}
