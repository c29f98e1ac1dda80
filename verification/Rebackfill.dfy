/**
  Re-extraction of legacy PDF versions: which versions are eligible, what one run does to the stores
  when versions fail on the way, and how repeated runs drain the backlog.
 */
module Rebackfill {
  import opened Wrappers
  import Keyset
  import opened Lifecycle

  const PDF_CONTENT_TYPE: string := "application/pdf"
  const TARGET_PARSER_VERSION: string := "0.2"

  /** What today's PdfParser stamps on its output. */
  const PARSER_VERSION: string := "0.2"

  /** A catalog row, in listing order: by document, then by version. */
  datatype VersionRow = VersionRow(documentId: int, id: int, filename: string, contentType: string, status: Status)

  /** A claim or a document topic extracted from a version. */
  datatype Artifact = Artifact(versionId: int, id: int)

  /** The stores a run touches. A semantic document is known by the parser version it was made from. */
  datatype Stores = Stores(
    versions: seq<VersionRow>,
    raws: map<int, string>,
    semantics: map<int, string>,
    claims: set<Artifact>,
    topics: set<Artifact>)

  /** Where the re-extraction of a version raises, if it does. */
  datatype Fault = Clean | AtParse | AtSaveRaw | AtSemantic | AtClaims | AtTopics | AtDemotion | AtRecord

  datatype VersionPlan = VersionPlan(documentId: int, versionId: int, filename: string, status: Status, parserVersion: string, willDemote: bool)

  datatype Result = Result(scanned: nat, eligible: nat, plan: seq<VersionPlan>, rebackfilled: seq<int>, demoted: seq<int>, skipped: seq<int>)

  /** Python's order on strings: by code point, a proper prefix first. */
  predicate Less(a: string, b: string) {
    if b == "" then false
    else if a == "" then true
    else a[0] < b[0] || (a[0] == b[0] && Less(a[1..], b[1..]))
  }

  function IndexAmong(versions: seq<VersionRow>, id: int, n: nat): (r: Option<nat>)
    requires n <= |versions|
    ensures r.Some? ==> r.value < n && versions[r.value].id == id
    ensures r.None? ==> forall i :: 0 <= i < n ==> versions[i].id != id
  {
    if n == 0 then None else if versions[n - 1].id == id then Some(n - 1) else IndexAmong(versions, id, n - 1)
  }

  /** Version ids are unique. */
  predicate DistinctVersions(versions: seq<VersionRow>) {
    forall i :: 0 <= i < |versions| ==> IndexAmong(versions, versions[i].id, |versions|) == Some(i)
  }

  // ----- Eligibility -----

  predicate Legacy(s: Stores, v: VersionRow) {
    v.contentType == PDF_CONTENT_TYPE && v.id in s.raws && Less(s.raws[v.id], TARGET_PARSER_VERSION)
  }

  predicate Eligible(s: Stores, documentId: Option<int>, v: VersionRow) {
    (documentId.Some? ==> v.documentId == documentId.value) && Legacy(s, v)
  }

  /** The positions of the eligible ones among the first n versions. */
  function Backlog(s: Stores, documentId: Option<int>, n: nat): (r: seq<nat>)
    requires n <= |s.versions|
    ensures |r| <= n
    ensures forall k :: 0 <= k < |r| ==> r[k] < n && Eligible(s, documentId, s.versions[r[k]])
  {
    if n == 0 then []
    else Backlog(s, documentId, n - 1) + if Eligible(s, documentId, s.versions[n - 1]) then [n - 1] else []
  }

  function All(s: Stores, documentId: Option<int>): (r: seq<nat>)
    ensures forall k :: 0 <= k < |r| ==> r[k] < |s.versions|
  {
    Backlog(s, documentId, |s.versions|)
  }

  /** How many versions a run takes on. The limit is checked after the append, so one is taken even at limit 0 or less. */
  function Batch(limit: Option<int>, backlog: nat): (n: nat)
    ensures n <= backlog
  {
    if limit.None? || limit.value >= backlog then backlog
    else if limit.value < 1 then if backlog == 0 then 0 else 1
    else limit.value
  }

  /** The limit is a maximum, as its help text says, if and only if it is positive, or zero with nothing to do. */
  lemma LimitIsMaximum(limit: int, backlog: nat)
    ensures Batch(Some(limit), backlog) <= limit <==> limit >= 1 || (limit == 0 && backlog == 0)
  {
  }

  /** At limit 0 a run takes on a version. */
  lemma LimitZeroTakesOne() returns (s: Stores)
    ensures DistinctVersions(s.versions) && |All(s, None)| == 1 && Batch(Some(0), |All(s, None)|) == 1
  {
    var v := VersionRow(1, 1, "a.pdf", PDF_CONTENT_TYPE, Validated);
    s := Stores([v], map[1 := "0.1"], map[], {}, {});
    assert Less("1", "2") && Less(".1", ".2") && Less("0.1", "0.2") by {
      assert ".1"[1..] == "1" && ".2"[1..] == "2" && "0.1"[1..] == ".1" && "0.2"[1..] == ".2";
    }
    assert Eligible(s, None, s.versions[0]);
    assert Backlog(s, None, 0) == [] && Backlog(s, None, 1) == [0];
    assert IndexAmong(s.versions, 1, 1) == Some(0);
  }

  // ----- What one re-extraction does -----

  predicate Demotable(v: VersionRow) {
    v.status in {Validated, Rejected}
  }

  predicate Succeeds(v: VersionRow, fault: Fault) {
    fault.Clean? || (fault in {AtDemotion, AtRecord} && !Demotable(v))
  }

  function Without(artifacts: set<Artifact>, versionId: int): set<Artifact> {
    set a | a in artifacts && a.versionId != versionId
  }

  /** All a version has in the stores. */
  datatype View = View(row: VersionRow, raw: Option<string>, semantic: Option<string>, claims: set<Artifact>, topics: set<Artifact>)

  function Find(m: map<int, string>, id: int): Option<string> {
    if id in m then Some(m[id]) else None
  }

  function ViewOf(s: Stores, i: nat): View
    requires i < |s.versions|
  {
    var id := s.versions[i].id;
    View(s.versions[i], Find(s.raws, id), Find(s.semantics, id),
         set a | a in s.claims && a.versionId == id, set a | a in s.topics && a.versionId == id)
  }

  /** What becomes of a version that a run takes on. */
  function Redone(v: View, fault: Fault): View {
    var parsed := v.(raw := Some(PARSER_VERSION));
    var extracted := parsed.(semantic := Some(PARSER_VERSION));
    match fault
    case AtParse => v
    case AtSaveRaw => v
    case AtSemantic => parsed
    case AtClaims => extracted
    case AtTopics => extracted.(claims := {})
    case AtDemotion => extracted.(claims := {}, topics := {})
    case _ => extracted.(claims := {}, topics := {}, row := if Demotable(v.row) then v.row.(status := NeedsReview) else v.row)
  }

  /** The stores after the re-extraction of version i. */
  function Step(s: Stores, i: nat, fault: Fault): (r: Stores)
    requires i < |s.versions|
    ensures |r.versions| == |s.versions|
  {
    var v := s.versions[i];
    if fault in {AtParse, AtSaveRaw} then s
    else
      var parsed := s.(raws := s.raws[v.id := PARSER_VERSION]);
      if fault.AtSemantic? then parsed
      else
        var extracted := parsed.(semantics := s.semantics[v.id := PARSER_VERSION]);
        if fault.AtClaims? then extracted
        else
          var unclaimed := extracted.(claims := Without(s.claims, v.id));
          if fault.AtTopics? then unclaimed
          else
            var cleared := unclaimed.(topics := Without(s.topics, v.id));
            if Demotable(v) && !fault.AtDemotion? then cleared.(versions := s.versions[i := v.(status := NeedsReview)]) else cleared
  }

  lemma OneRowPerId(versions: seq<VersionRow>, i: nat, j: nat)
    requires DistinctVersions(versions) && i < |versions| && j < |versions|
    ensures versions[i].id == versions[j].id ==> i == j
  {
    assert IndexAmong(versions, versions[i].id, |versions|) == Some(i);
    assert IndexAmong(versions, versions[j].id, |versions|) == Some(j);
  }

  lemma StepRedoesOne(s: Stores, i: nat, fault: Fault, j: nat)
    requires DistinctVersions(s.versions) && i < |s.versions| && j < |s.versions|
    ensures ViewOf(Step(s, i, fault), j) == if j == i then Redone(ViewOf(s, i), fault) else ViewOf(s, j)
  {
    hide DistinctVersions, IndexAmong;
    OneRowPerId(s.versions, i, j);
    var before, after := ViewOf(s, j), ViewOf(Step(s, i, fault), j);
    assert before.claims == after.claims || after.claims == {};
    assert before.topics == after.topics || after.topics == {};
  }

  lemma {:induction false} SameIndex(a: seq<VersionRow>, b: seq<VersionRow>, id: int, n: nat)
    requires n <= |a| == |b| && forall i :: 0 <= i < |a| ==> a[i].id == b[i].id
    ensures IndexAmong(a, id, n) == IndexAmong(b, id, n)
  {
    if n > 0 {
      SameIndex(a, b, id, n - 1);
    }
  }

  lemma StepKeepsIds(s: Stores, i: nat, fault: Fault)
    requires DistinctVersions(s.versions) && i < |s.versions|
    ensures DistinctVersions(Step(s, i, fault).versions)
  {
    var after := Step(s, i, fault).versions;
    forall j | 0 <= j < |after|
      ensures IndexAmong(after, after[j].id, |after|) == Some(j)
    {
      assert IndexAmong(s.versions, s.versions[j].id, |after|) == Some(j);
      SameIndex(after, s.versions, after[j].id, |after|);
    }
  }

  // ----- A run -----

  /** The stores once the first k versions of the backlog were taken on. Faults are told by version id. */
  function After(s: Stores, d: Option<int>, faults: int -> Fault, k: nat): (r: Stores)
    requires k <= |All(s, d)|
    ensures |r.versions| == |s.versions|
  {
    if k == 0 then s
    else
      var i := All(s, d)[k - 1];
      Step(After(s, d, faults, k - 1), i, faults(s.versions[i].id))
  }

  /** How many eligible versions come before version j. */
  function Rank(s: Stores, d: Option<int>, j: nat): nat
    requires j <= |s.versions|
  {
    |Backlog(s, d, j)|
  }

  predicate TakenOn(s: Stores, d: Option<int>, k: nat, j: nat)
    requires j < |s.versions|
  {
    Eligible(s, d, s.versions[j]) && Rank(s, d, j) < k
  }

  lemma {:induction false} BacklogGrows(s: Stores, d: Option<int>, m: nat, n: nat)
    requires m <= n <= |s.versions|
    ensures Backlog(s, d, m) <= Backlog(s, d, n)
  {
    hide Eligible;
    if m < n {
      BacklogGrows(s, d, m, n - 1);
    }
  }

  lemma AtRank(s: Stores, d: Option<int>, j: nat)
    requires j < |s.versions| && Eligible(s, d, s.versions[j])
    ensures Rank(s, d, j) < |All(s, d)| && All(s, d)[Rank(s, d, j)] == j
  {
    hide Eligible;
    BacklogGrows(s, d, j + 1, |s.versions|);
  }

  lemma {:induction false} RankAt(s: Stores, d: Option<int>, k: nat, n: nat)
    requires n <= |s.versions| && k < |Backlog(s, d, n)|
    ensures Rank(s, d, Backlog(s, d, n)[k]) == k
  {
    hide Eligible;
    if k < |Backlog(s, d, n - 1)| {
      RankAt(s, d, k, n - 1);
    }
  }

  lemma TakenOnNext(s: Stores, d: Option<int>, k: nat, j: nat)
    requires k < |All(s, d)| && j < |s.versions|
    ensures TakenOn(s, d, k + 1, j) <==> TakenOn(s, d, k, j) || j == All(s, d)[k]
    ensures !TakenOn(s, d, k, All(s, d)[k])
  {
    hide Eligible, Backlog;
    RankAt(s, d, k, |s.versions|);
    if Eligible(s, d, s.versions[j]) {
      AtRank(s, d, j);
    }
  }

  /** A run redoes the versions it takes on and leaves every other version as it was. */
  lemma {:induction false} RunTouchesOnlyTaken(s: Stores, d: Option<int>, faults: int -> Fault, k: nat, j: nat)
    requires DistinctVersions(s.versions) && k <= |All(s, d)| && j < |s.versions|
    ensures DistinctVersions(After(s, d, faults, k).versions)
    ensures ViewOf(After(s, d, faults, k), j)
            == if TakenOn(s, d, k, j) then Redone(ViewOf(s, j), faults(s.versions[j].id)) else ViewOf(s, j)
  {
    hide DistinctVersions, Step, TakenOn, ViewOf, Redone, All;
    if k > 0 {
      var i, before := All(s, d)[k - 1], After(s, d, faults, k - 1);
      RunTouchesOnlyTaken(s, d, faults, k - 1, j);
      TakenOnNext(s, d, k - 1, j);
      StepRedoesOne(before, i, faults(s.versions[i].id), j);
      StepKeepsIds(before, i, faults(s.versions[i].id));
    } else {
      NoneTaken(s, d, faults, j);
    }
  }

  lemma NoneTaken(s: Stores, d: Option<int>, faults: int -> Fault, j: nat)
    requires j < |s.versions|
    ensures !TakenOn(s, d, 0, j) && After(s, d, faults, 0) == s
  {
  }

  /** `b` begins with `a` and goes on, or has the greater character where they first differ. */
  predicate Precedes(a: string, b: string, n: nat) {
    n <= |a| && n < |b| && a[..n] == b[..n] && (n == |a| || a[n] < b[n])
  }

  lemma {:induction false} LessMeans(a: string, b: string)
    ensures Less(a, b) <==> exists n: nat :: Precedes(a, b, n)
  {
    if a == "" || b == "" {
      assert b != "" ==> Precedes(a, b, 0);
    } else {
      LessMeans(a[1..], b[1..]);
      if a[0] < b[0] {
        assert Precedes(a, b, 0);
      } else if a[0] == b[0] {
        LessTails(a, b);
      } else {
        assert forall n: nat :: 0 < n && Precedes(a, b, n) ==> a[..n][0] == b[..n][0];
      }
    }
  }

  lemma LessTails(a: string, b: string)
    requires a != "" && b != "" && a[0] == b[0]
    ensures (exists n: nat :: Precedes(a, b, n)) <==> exists n: nat :: Precedes(a[1..], b[1..], n)
  {
    forall n: nat
      ensures Precedes(a[1..], b[1..], n) <==> Precedes(a, b, n + 1)
    {
      if n < |a| && n < |b| {
        assert a[..n + 1] == [a[0]] + a[1..][..n] && b[..n + 1] == [b[0]] + b[1..][..n];
        assert a[1..][..n] == a[..n + 1][1..] && b[1..][..n] == b[..n + 1][1..];
      }
    }
    if exists n: nat :: Precedes(a, b, n) {
      var n: nat :| Precedes(a, b, n);
      assert n > 0;
      assert Precedes(a[1..], b[1..], n - 1);
    }
  }

  /** The backlog: PDF versions, of the one document if there is a filter, with a stored extraction by a parser older than 0.2; in order. */
  lemma BacklogMeans(s: Stores, d: Option<int>, j: nat)
    requires j < |s.versions|
    ensures var v := s.versions[j];
            j in All(s, d) <==>
              && (d.None? || d == Some(v.documentId)) && v.contentType == "application/pdf"
              && v.id in s.raws && exists n: nat :: Precedes(s.raws[v.id], "0.2", n)
    ensures forall a, b :: 0 <= a < b < |All(s, d)| ==> All(s, d)[a] < All(s, d)[b]
  {
    hide Less, Precedes;
    BacklogUpTo(s, d, |s.versions|, j);
    if s.versions[j].id in s.raws {
      LessMeans(s.raws[s.versions[j].id], "0.2");
    }
  }

  lemma {:induction false} BacklogUpTo(s: Stores, d: Option<int>, n: nat, j: nat)
    requires n <= |s.versions| && j < |s.versions|
    ensures j in Backlog(s, d, n) <==> j < n && Eligible(s, d, s.versions[j])
    ensures forall a, b :: 0 <= a < b < |Backlog(s, d, n)| ==> Backlog(s, d, n)[a] < Backlog(s, d, n)[b]
  {
    hide Eligible;
    if n > 0 {
      BacklogUpTo(s, d, n - 1, j);
    }
  }

  /** How many are taken: all without a limit, else as many as the limit but at least one, as far as there are any. */
  lemma BatchMeans(limit: Option<int>, backlog: nat)
    ensures limit.None? ==> Batch(limit, backlog) == backlog
    ensures limit.Some? ==> Batch(limit, backlog) <= backlog
                            && (limit.value <= backlog && 1 <= limit.value ==> Batch(limit, backlog) == limit.value)
                            && (limit.value >= backlog ==> Batch(limit, backlog) == backlog)
                            && (limit.value < 1 <= backlog ==> Batch(limit, backlog) == 1)
  {
  }

  /**
    What a run leaves of version j in each store, written out: a taken one is re-extracted by parser 0.2, its claims and
    topics are gone and a reviewed one awaits review again, each as far as the fault lets the run get.
   */
  lemma AfterMeans(s: Stores, d: Option<int>, faults: int -> Fault, k: nat, j: nat)
    requires DistinctVersions(s.versions) && k <= |All(s, d)| && j < |s.versions|
    ensures var after, v, fault := After(s, d, faults, k), s.versions[j], faults(s.versions[j].id);
            if !TakenOn(s, d, k, j) || fault in {AtParse, AtSaveRaw} then
              && after.versions[j] == v && Find(after.raws, v.id) == Find(s.raws, v.id) && Find(after.semantics, v.id) == Find(s.semantics, v.id)
              && (forall a: Artifact :: a.versionId == v.id ==> (a in after.claims <==> a in s.claims) && (a in after.topics <==> a in s.topics))
            else
              && v.id in after.raws && after.raws[v.id] == "0.2"
              && (if fault == AtSemantic then Find(after.semantics, v.id) == Find(s.semantics, v.id)
                  else v.id in after.semantics && after.semantics[v.id] == "0.2")
              && (forall a: Artifact :: a.versionId == v.id ==>
                    && (a in after.claims <==> fault in {AtSemantic, AtClaims} && a in s.claims)
                    && (a in after.topics <==> fault in {AtSemantic, AtClaims, AtTopics} && a in s.topics))
              && after.versions[j] == v.(status := if v.status in {Validated, Rejected} && fault in {Clean, AtRecord} then NeedsReview
                                                   else v.status)
  {
    hide DistinctVersions, After, All, TakenOn;
    RunTouchesOnlyTaken(s, d, faults, k, j);
    var after, id := After(s, d, faults, k), s.versions[j].id;
    SameView(s, after, j);
  }

  lemma SameView(s: Stores, after: Stores, j: nat)
    requires j < |s.versions| == |after.versions| && after.versions[j].id == s.versions[j].id
    ensures forall a: Artifact :: a.versionId == s.versions[j].id ==>
              && (a in ViewOf(after, j).claims <==> a in after.claims) && (a in ViewOf(after, j).topics <==> a in after.topics)
              && (a in ViewOf(s, j).claims <==> a in s.claims) && (a in ViewOf(s, j).topics <==> a in s.topics)
  {
  }

  // ----- What a run reports -----

  /** What counts as rebackfilled, what a plan says, and what is scanned, written out. */
  lemma LandsMeans(s: Stores, d: Option<int>, faults: int -> Fault, k: nat)
    requires k < |All(s, d)|
    ensures var v := s.versions[All(s, d)[k]];
            && Taken(s, d, k) == v
            && (Lands(s, d, faults, k) <==> faults(v.id) == Clean || (faults(v.id) in {AtDemotion, AtRecord} && v.status !in {Validated, Rejected}))
            && (Demotable(v) <==> v.status == Validated || v.status == Rejected)
  {
    hide All;
  }

  lemma {:induction false} PlansMean(s: Stores, d: Option<int>, k: nat, i: nat)
    requires i < k <= |All(s, d)|
    ensures var v, plan := s.versions[All(s, d)[i]], Plans(s, d, k)[i];
            && plan.documentId == v.documentId && plan.versionId == v.id && plan.filename == v.filename && plan.status == v.status
            && v.id in s.raws && plan.parserVersion == s.raws[v.id]
            && (plan.willDemote <==> v.status == Validated || v.status == Rejected)
  {
    hide All;
    if i < k - 1 {
      PlansMean(s, d, k - 1, i);
    } else {
      TakenIsEligible(s, d, i);
    }
  }

  lemma TakenIsEligible(s: Stores, d: Option<int>, i: nat)
    requires i < |All(s, d)|
    ensures s.versions[All(s, d)[i]].id in s.raws
  {
    assert Eligible(s, d, s.versions[All(s, d)[i]]);
  }

  function ConcernedAt(versions: seq<VersionRow>, d: Option<int>, n: nat): set<nat>
    requires n <= |versions|
  {
    set i: nat | i < n && (d.None? || d == Some(versions[i].documentId))
  }

  lemma {:induction false} ScannedMeans(versions: seq<VersionRow>, d: Option<int>, n: nat)
    requires n <= |versions|
    ensures Concerned(versions, d, n) == |ConcernedAt(versions, d, n)|
  {
    if n > 0 {
      ScannedMeans(versions, d, n - 1);
      OneMoreConcerned(versions, d, n - 1);
    }
  }

  lemma OneMoreConcerned(versions: seq<VersionRow>, d: Option<int>, n: nat)
    requires n < |versions|
    ensures |ConcernedAt(versions, d, n + 1)| == |ConcernedAt(versions, d, n)| + if d.None? || d == Some(versions[n].documentId) then 1 else 0
  {
    var before := ConcernedAt(versions, d, n);
    assert ConcernedAt(versions, d, n + 1) == if d.None? || d == Some(versions[n].documentId) then before + {n} else before;
  }

  function PlanFor(s: Stores, i: nat): VersionPlan
    requires i < |s.versions| && s.versions[i].id in s.raws
  {
    var v := s.versions[i];
    VersionPlan(v.documentId, v.id, v.filename, v.status, s.raws[v.id], Demotable(v))
  }

  function Plans(s: Stores, d: Option<int>, k: nat): (r: seq<VersionPlan>)
    requires k <= |All(s, d)|
    ensures |r| == k
  {
    if k == 0 then [] else Plans(s, d, k - 1) + [PlanFor(s, All(s, d)[k - 1])]
  }

  /** The backlog's k-th version, and whether its re-extraction runs to the end. */
  function Taken(s: Stores, d: Option<int>, k: nat): VersionRow
    requires k < |All(s, d)|
  {
    s.versions[All(s, d)[k]]
  }

  predicate Lands(s: Stores, d: Option<int>, faults: int -> Fault, k: nat)
    requires k < |All(s, d)|
  {
    Succeeds(Taken(s, d, k), faults(Taken(s, d, k).id))
  }

  function Landed(s: Stores, d: Option<int>, faults: int -> Fault, k: nat): seq<int>
    requires k <= |All(s, d)|
  {
    if k == 0 then []
    else Landed(s, d, faults, k - 1) + if Lands(s, d, faults, k - 1) then [Taken(s, d, k - 1).id] else []
  }

  function Skipped(s: Stores, d: Option<int>, faults: int -> Fault, k: nat): seq<int>
    requires k <= |All(s, d)|
  {
    if k == 0 then []
    else Skipped(s, d, faults, k - 1) + if Lands(s, d, faults, k - 1) then [] else [Taken(s, d, k - 1).id]
  }

  function Demoted(s: Stores, d: Option<int>, faults: int -> Fault, k: nat): seq<int>
    requires k <= |All(s, d)|
  {
    if k == 0 then []
    else
      Demoted(s, d, faults, k - 1)
      + if Lands(s, d, faults, k - 1) && Demotable(Taken(s, d, k - 1)) then [Taken(s, d, k - 1).id] else []
  }

  lemma {:induction false} ReportsOnlyTaken(s: Stores, d: Option<int>, faults: int -> Fault, k: nat, id: int)
    requires k <= |All(s, d)|
    requires id in Landed(s, d, faults, k) || id in Skipped(s, d, faults, k)
    ensures exists i :: 0 <= i < k && Taken(s, d, i).id == id
  {
    hide All, Taken, Lands;
    if id in Landed(s, d, faults, k - 1) || id in Skipped(s, d, faults, k - 1) {
      ReportsOnlyTaken(s, d, faults, k - 1, id);
    }
  }

  /** Rebackfilled and skipped split the versions a run takes on; the demoted ones are among the rebackfilled. */
  lemma {:induction false} RunPartitions(s: Stores, d: Option<int>, faults: int -> Fault, k: nat)
    requires k <= |All(s, d)|
    ensures |Landed(s, d, faults, k)| + |Skipped(s, d, faults, k)| == k
    ensures forall i :: 0 <= i < k ==> if Lands(s, d, faults, i) then Taken(s, d, i).id in Landed(s, d, faults, k)
                                       else Taken(s, d, i).id in Skipped(s, d, faults, k)
    ensures forall id :: id in Demoted(s, d, faults, k) ==> id in Landed(s, d, faults, k)
  {
    hide All, Taken, Lands, Demotable;
    if k > 0 {
      RunPartitions(s, d, faults, k - 1);
    }
  }

  lemma TakenApart(s: Stores, d: Option<int>, i: nat, j: nat)
    requires DistinctVersions(s.versions) && i < |All(s, d)| && j < |All(s, d)| && Taken(s, d, i).id == Taken(s, d, j).id
    ensures i == j
  {
    OneRowPerId(s.versions, All(s, d)[i], All(s, d)[j]);
    RankAt(s, d, i, |s.versions|);
    RankAt(s, d, j, |s.versions|);
  }

  /** No version is in both lists, and it is demoted exactly when it landed from VALIDATED or REJECTED. */
  lemma {:induction false} RunReportsOnce(s: Stores, d: Option<int>, faults: int -> Fault, k: nat, i: nat)
    requires DistinctVersions(s.versions) && i < k <= |All(s, d)|
    ensures Taken(s, d, i).id in Landed(s, d, faults, k) <==> Lands(s, d, faults, i)
    ensures Taken(s, d, i).id in Skipped(s, d, faults, k) <==> !Lands(s, d, faults, i)
    ensures Taken(s, d, i).id in Demoted(s, d, faults, k) <==> Lands(s, d, faults, i) && Demotable(Taken(s, d, i))
  {
    hide DistinctVersions, All, Taken, Lands, Demotable;
    if i < k - 1 {
      RunReportsOnce(s, d, faults, k - 1, i);
      if Taken(s, d, i).id == Taken(s, d, k - 1).id {
        TakenApart(s, d, i, k - 1);
      }
    } else {
      var id := Taken(s, d, i).id;
      RunPartitions(s, d, faults, i);
      if id in Landed(s, d, faults, i) || id in Skipped(s, d, faults, i) {
        ReportsOnlyTaken(s, d, faults, i, id);
        var j :| 0 <= j < i && Taken(s, d, j).id == id;
        TakenApart(s, d, i, j);
      }
    }
  }

  // ----- What is left to do -----

  /**
    After a run a version is still eligible if and only if it was and the run did not get as far as saving its
    new extraction. A version skipped for a later failure is therefore lost to the next run.
   */
  lemma EligibleAfterwards(s: Stores, d: Option<int>, faults: int -> Fault, k: nat, j: nat)
    requires DistinctVersions(s.versions) && k <= |All(s, d)| && j < |s.versions|
    ensures var after := After(s, d, faults, k);
            Eligible(after, d, after.versions[j]) <==>
              && Eligible(s, d, s.versions[j])
              && (Rank(s, d, j) >= k || faults(s.versions[j].id) in {AtParse, AtSaveRaw})
  {
    hide DistinctVersions, After, All, Rank;
    RunTouchesOnlyTaken(s, d, faults, k, j);
    EligibleByView(s, d, j);
    EligibleByView(After(s, d, faults, k), d, j);
    NotLegacyNow();
  }

  lemma NotLegacyNow()
    ensures !Less(PARSER_VERSION, TARGET_PARSER_VERSION)
  {
    assert !Less("2", "2") && !Less(".2", ".2");
    assert PARSER_VERSION[1..] == ".2" && ".2"[1..] == "2" && "2"[1..] == "";
  }

  lemma EligibleByView(s: Stores, d: Option<int>, j: nat)
    requires j < |s.versions|
    ensures var v := ViewOf(s, j);
            Eligible(s, d, s.versions[j]) <==>
              && (d.Some? ==> v.row.documentId == d.value) && v.row.contentType == PDF_CONTENT_TYPE
              && v.raw.Some? && Less(v.raw.value, TARGET_PARSER_VERSION)
  {
    hide Less;
  }

  /** No version fails before its new extraction is saved. */
  ghost predicate Advances(faults: int -> Fault) {
    forall id :: faults(id) !in {AtParse, AtSaveRaw}
  }

  /** Such a run leaves exactly the rest of the backlog for the next one. */
  lemma {:induction false} RunConsumesBacklog(s: Stores, d: Option<int>, faults: int -> Fault, k: nat, n: nat)
    requires DistinctVersions(s.versions) && Advances(faults) && k <= |All(s, d)| && n <= |s.versions|
    ensures Backlog(After(s, d, faults, k), d, n) == Rest(Backlog(s, d, n), k)
  {
    hide DistinctVersions, Eligible, After, All, Backlog, Advances, Rest;
    var after := After(s, d, faults, k);
    if n > 0 {
      RunConsumesBacklog(s, d, faults, k, n - 1);
      EligibleOnceAdvanced(s, d, faults, k, n - 1);
      BacklogNext(s, d, n - 1);
      BacklogNext(after, d, n - 1);
      RestNext(Backlog(s, d, n - 1), n - 1, k, Eligible(s, d, s.versions[n - 1]));
    } else {
      BacklogStart(s, d);
      BacklogStart(after, d);
      RestNext([], 0, k, false);
    }
  }

  lemma EligibleOnceAdvanced(s: Stores, d: Option<int>, faults: int -> Fault, k: nat, j: nat)
    requires DistinctVersions(s.versions) && Advances(faults) && k <= |All(s, d)| && j < |s.versions|
    ensures var after := After(s, d, faults, k);
            Eligible(after, d, after.versions[j]) <==> Eligible(s, d, s.versions[j]) && |Backlog(s, d, j)| >= k
  {
    hide DistinctVersions, Eligible, After, All, Backlog;
    EligibleAfterwards(s, d, faults, k, j);
  }

  /** What is left of a list without its first k members. */
  function Rest(xs: seq<nat>, k: nat): seq<nat> {
    if |xs| <= k then [] else xs[k..]
  }

  lemma RestNext(xs: seq<nat>, x: nat, k: nat, more: bool)
    ensures Rest(xs + (if more then [x] else []), k) == Rest(xs, k) + if more && |xs| >= k then [x] else []
    ensures xs == [] ==> Rest(xs, k) == []
  {
  }

  lemma BacklogNext(s: Stores, d: Option<int>, n: nat)
    requires n < |s.versions|
    ensures Backlog(s, d, n + 1) == Backlog(s, d, n) + if Eligible(s, d, s.versions[n]) then [n] else []
  {
    hide Eligible;
  }

  lemma BacklogStart(s: Stores, d: Option<int>)
    ensures Backlog(s, d, 0) == []
  {
  }

  /** How many runs find something to do, when every run is given the same limit. */
  ghost function Runs(s: Stores, d: Option<int>, faults: int -> Fault, limit: Option<int>): nat
    requires DistinctVersions(s.versions) && Advances(faults)
    decreases |All(s, d)|
  {
    if All(s, d) == [] then 0
    else
      var n := Batch(limit, |All(s, d)|);
      RunTouchesOnlyTaken(s, d, faults, n, 0);
      RunConsumesBacklog(s, d, faults, n, |s.versions|);
      1 + Runs(After(s, d, faults, n), d, faults, limit)
  }

  /** How often m can be taken off e until nothing is left. */
  function Takes(e: nat, m: nat): nat
    requires m > 0
  {
    if e == 0 then 0 else 1 + Takes(if e <= m then 0 else e - m, m)
  }

  /** The last take is needed, and none is missing. */
  lemma {:induction false} TakesBounds(e: nat, m: nat)
    requires m > 0
    ensures if e == 0 then Takes(e, m) == 0 else e <= Takes(e, m) * m && (Takes(e, m) as int - 1) * m < e
  {
    if e > 0 {
      var rest := if e <= m then 0 else e - m;
      TakesBounds(rest, m);
      assert (Takes(rest, m) + 1) * m == Takes(rest, m) * m + m;
    }
  }

  lemma TakesCeil(e: nat, m: nat)
    requires m > 0
    ensures Takes(e, m) == Keyset.CeilDiv(e, m)
  {
    hide Takes, Keyset.CeilDiv;
    TakesBounds(e, m);
    CeilIsUnique(e, m, Takes(e, m));
  }

  lemma CeilIsUnique(e: nat, m: nat, k: nat)
    requires m > 0 && if e == 0 then k == 0 else e <= k * m && (k as int - 1) * m < e
    ensures Keyset.CeilDiv(e, m) == k
  {
    if e == 0 {
      assert (m - 1) / m == 0;
    } else {
      Keyset.MulOrder(Keyset.CeilDiv(e, m) - 1, k, m);
      Keyset.MulOrder(k - 1, Keyset.CeilDiv(e, m), m);
    }
  }

  lemma {:induction false} RunsTake(s: Stores, d: Option<int>, faults: int -> Fault, limit: int)
    requires DistinctVersions(s.versions) && Advances(faults)
    ensures Runs(s, d, faults, Some(limit)) == Takes(|All(s, d)|, if limit < 1 then 1 else limit)
    decreases |All(s, d)|
  {
    hide DistinctVersions, After, Backlog, Advances;
    if All(s, d) != [] {
      var n := Batch(Some(limit), |All(s, d)|);
      RunTouchesOnlyTaken(s, d, faults, n, 0);
      RunConsumesBacklog(s, d, faults, n, |s.versions|);
      RunsTake(After(s, d, faults, n), d, faults, limit);
    }
  }

  /** A backlog of E versions is drained in exactly ceil(E / n) runs of limit n, where a limit below 1 works like 1. */
  lemma DrainTakesCeilRuns(s: Stores, d: Option<int>, faults: int -> Fault, limit: int)
    requires DistinctVersions(s.versions) && Advances(faults)
    ensures Runs(s, d, faults, Some(limit)) == Keyset.CeilDiv(|All(s, d)|, if limit < 1 then 1 else limit)
  {
    hide DistinctVersions, Advances, All, Runs;
    RunsTake(s, d, faults, limit);
    TakesCeil(|All(s, d)|, if limit < 1 then 1 else limit);
  }

  /** Without a limit one run does it. */
  lemma UnlimitedDrainsAtOnce(s: Stores, d: Option<int>, faults: int -> Fault)
    requires DistinctVersions(s.versions) && Advances(faults) && All(s, d) != []
    ensures Runs(s, d, faults, None) == 1
  {
    hide DistinctVersions, After, Backlog, Advances, Eligible;
    var n := |All(s, d)|;
    RunTouchesOnlyTaken(s, d, faults, n, 0);
    RunConsumesBacklog(s, d, faults, n, |s.versions|);
    assert All(After(s, d, faults, n), d) == [];
  }

  // ----- The program -----

  function Concerned(versions: seq<VersionRow>, d: Option<int>, n: nat): nat
    requires n <= |versions|
  {
    if n == 0 then 0
    else Concerned(versions, d, n - 1) + if d.Some? && versions[n - 1].documentId != d.value then 0 else 1
  }

  lemma LimitReached(s: Stores, d: Option<int>, limit: Option<int>, n: nat)
    requires n <= |s.versions| && limit.Some? && limit.value <= |Backlog(s, d, n)|
    requires Backlog(s, d, n) != [] && (|Backlog(s, d, n)| == 1 || |Backlog(s, d, n)| == limit.value)
    ensures Backlog(s, d, n) == All(s, d)[..Batch(limit, |All(s, d)|)]
  {
    hide Eligible;
    BacklogGrows(s, d, n, |s.versions|);
  }

  lemma LimitNotReached(s: Stores, d: Option<int>, limit: Option<int>)
    requires limit.Some? && Backlog(s, d, |s.versions|) != [] ==> |Backlog(s, d, |s.versions|)| < limit.value
    ensures All(s, d) == Backlog(s, d, |s.versions|) == All(s, d)[..Batch(limit, |All(s, d)|)]
  {
    hide Eligible, Backlog;
  }

  class Backfill {
    var stores: Stores

    /** `_eligible_versions`. */
    method EligibleVersions(d: Option<int>, limit: Option<int>) returns (out: seq<nat>)
      ensures out == All(stores, d)[..Batch(limit, |All(stores, d)|)]
      ensures limit.Some? ==> (|out| <= limit.value <==> limit.value >= 1 || (limit.value == 0 && |All(stores, d)| == 0))
    {
      hide Less, Batch, All, Backlog;
      BacklogStart(stores, d);
      out := [];
      var versions := stores.versions;
      for n := 0 to |versions|
        invariant out == Backlog(stores, d, n)
        invariant limit.Some? && out != [] ==> |out| < limit.value
      {
        BacklogNext(stores, d, n);
        var version := versions[n];
        if d.Some? && version.documentId != d.value {
          continue;
        }
        if version.contentType != PDF_CONTENT_TYPE {
          continue;
        }
        if version.id !in stores.raws {
          continue;
        }
        if !Less(stores.raws[version.id], TARGET_PARSER_VERSION) {
          continue;
        }
        out := out + [n];
        if limit.Some? && |out| >= limit.value {
          LimitReached(stores, d, limit, n + 1);
          LimitIsMaximum(limit.value, |All(stores, d)|);
          return;
        }
      }
      LimitNotReached(stores, d, limit);
      if limit.Some? {
        LimitIsMaximum(limit.value, |All(stores, d)|);
      }
    }

    /** `_rebackfill_one` on the version listed at position i; not ok where it raises. */
    method RebackfillOne(version: VersionRow, ghost i: nat, fault: Fault) returns (ok: bool, demoted: bool)
      requires DistinctVersions(stores.versions) && i < |stores.versions| && stores.versions[i] == version
      modifies `stores
      ensures stores == Step(old(stores), i, fault)
      ensures ok <==> Succeeds(version, fault)
      ensures ok ==> (demoted <==> Demotable(version))
    {
      if fault.AtParse? {
        return false, false;
      }
      if fault.AtSaveRaw? {
        return false, false;
      }
      stores := stores.(raws := stores.raws[version.id := PARSER_VERSION]);
      if fault.AtSemantic? {
        return false, false;
      }
      stores := stores.(semantics := stores.semantics[version.id := PARSER_VERSION]);
      if fault.AtClaims? {
        return false, false;
      }
      stores := stores.(claims := Without(stores.claims, version.id));
      if fault.AtTopics? {
        return false, false;
      }
      stores := stores.(topics := Without(stores.topics, version.id));
      if version.status in {Validated, Rejected} {
        if fault.AtDemotion? {
          return false, false;
        }
        assert IndexAmong(stores.versions, stores.versions[i].id, |stores.versions|) == Some(i);
        var at := IndexAmong(stores.versions, version.id, |stores.versions|).value;
        stores := stores.(versions := stores.versions[at := stores.versions[at].(status := NeedsReview)]);
        if fault.AtRecord? {
          return false, false;
        }
        return true, true;
      }
      return true, false;
    }

    /** `run_rebackfill`. */
    method RunRebackfill(dryRun: bool, d: Option<int>, limit: Option<int>, faults: int -> Fault) returns (result: Result)
      requires DistinctVersions(stores.versions)
      modifies `stores
      ensures DistinctVersions(stores.versions)
      ensures var s, k := old(stores), Batch(limit, |All(old(stores), d)|);
              && stores == (if dryRun then s else After(s, d, faults, k))
              && result == Result(Concerned(s.versions, d, |s.versions|), k, Plans(s, d, k),
                                  if dryRun then [] else Landed(s, d, faults, k),
                                  if dryRun then [] else Demoted(s, d, faults, k),
                                  if dryRun then [] else Skipped(s, d, faults, k))
    {
      hide DistinctVersions, All, Step, Batch, After, Plans, Landed, Skipped, Demoted, Succeeds;
      ghost var start := stores;
      var eligible := EligibleVersions(d, limit);
      var listed := stores.versions;
      var raws := stores.raws;
      var scanned := 0;
      for n := 0 to |listed|
        invariant scanned == Concerned(listed, d, n)
      {
        if d.None? || listed[n].documentId == d.value {
          scanned := scanned + 1;
        }
      }
      NothingDone(start, d, faults);
      var plan: seq<VersionPlan> := [];
      var rebackfilled: seq<int>, demoted: seq<int>, skipped: seq<int> := [], [], [];
      for k := 0 to |eligible|
        invariant DistinctVersions(stores.versions)
        invariant stores == if dryRun then start else After(start, d, faults, k)
        invariant plan == Plans(start, d, k)
        invariant rebackfilled == if dryRun then [] else Landed(start, d, faults, k)
        invariant demoted == if dryRun then [] else Demoted(start, d, faults, k)
        invariant skipped == if dryRun then [] else Skipped(start, d, faults, k)
      {
        var i := eligible[k];
        RunNext(start, d, faults, k);
        var version := listed[i];
        plan := plan + [VersionPlan(version.documentId, version.id, version.filename, version.status, raws[version.id],
                                    version.status in {Validated, Rejected})];
        if dryRun {
          continue;
        }
        StillListed(start, d, faults, k);
        var ok, wasDemoted := RebackfillOne(version, i, faults(version.id));
        if !ok {
          skipped := skipped + [version.id];
          continue;
        }
        rebackfilled := rebackfilled + [version.id];
        if wasDemoted {
          demoted := demoted + [version.id];
        }
      }
      return Result(scanned, |eligible|, plan, rebackfilled, demoted, skipped);
    }
  }

  lemma RunNext(s: Stores, d: Option<int>, faults: int -> Fault, k: nat)
    requires DistinctVersions(s.versions) && k < |All(s, d)|
    ensures var i := All(s, d)[k];
            var v := s.versions[i];
            var ok := Succeeds(v, faults(v.id));
            && v.id in s.raws
            && Plans(s, d, k + 1)
               == Plans(s, d, k) + [VersionPlan(v.documentId, v.id, v.filename, v.status, s.raws[v.id], Demotable(v))]
            && Landed(s, d, faults, k + 1) == Landed(s, d, faults, k) + (if ok then [v.id] else [])
            && Skipped(s, d, faults, k + 1) == Skipped(s, d, faults, k) + (if ok then [] else [v.id])
            && Demoted(s, d, faults, k + 1) == Demoted(s, d, faults, k) + (if ok && Demotable(v) then [v.id] else [])
            && After(s, d, faults, k + 1) == Step(After(s, d, faults, k), i, faults(v.id))
            && DistinctVersions(After(s, d, faults, k + 1).versions)
  {
    hide DistinctVersions, Less, Step, Succeeds, Demotable;
    RunTouchesOnlyTaken(s, d, faults, k + 1, 0);
  }

  lemma NothingDone(s: Stores, d: Option<int>, faults: int -> Fault)
    ensures After(s, d, faults, 0) == s && Plans(s, d, 0) == []
    ensures Landed(s, d, faults, 0) == [] && Demoted(s, d, faults, 0) == [] && Skipped(s, d, faults, 0) == []
  {
  }

  /** By the time a version's turn comes its row is still as listed. */
  lemma StillListed(s: Stores, d: Option<int>, faults: int -> Fault, k: nat)
    requires DistinctVersions(s.versions) && k < |All(s, d)|
    ensures After(s, d, faults, k).versions[All(s, d)[k]] == s.versions[All(s, d)[k]]
  {
    hide DistinctVersions, After, TakenOn, All;
    var i := All(s, d)[k];
    TakenOnNext(s, d, k, i);
    RunTouchesOnlyTaken(s, d, faults, k, i);
  }
}
