/**
  The administrators' purge routes over the catalog table: one document, a batch of listed documents,
  and Orbital's purge of everything active.
 */
module PurgeRoutes {
  import opened Wrappers
  import opened Keyset
  import opened Lifecycle
  import opened Catalog
  import opened CatalogTable
  import opened Purge

  lemma EntombedDistinct(documentId: int, versions: seq<Version>, at: int, n: nat)
    requires DistinctVersions(versions)
    ensures DistinctVersions(EntombedUpTo(documentId, versions, at, n))
  {
    DistinctById(EntombedUpTo(documentId, versions, at, n), versions);
  }

  /** `_all_versions_purged`: what standard reads answer with 410 Gone. */
  predicate FullyPurged(family: Family) {
    family.versions != [] && AllPurged(family.versions)
  }

  /** The cut made when catalog write number `crash` raises. It comes after the delete; a purged version is not written. */
  function RaisedAt(versions: seq<Version>, crash: Option<nat>): Option<Cut> {
    if crash.Some? && crash.value < |versions| && versions[crash.value].status != Purged then Some(Cut(crash.value, true)) else None
  }

  function StopsAt(versions: seq<Version>, crash: Option<nat>): nat {
    PassedBy(versions, RaisedAt(versions, crash))
  }

  /** What `_purge_one_document` answers, given the table it finds. Catalog write number `crash` fails if it is reached. */
  function OneOutcome(rows: seq<Document>, documentId: int, dryRun: bool, at: int, crash: Option<nat>): Outcome {
    match Find(rows, documentId)
    case None => NotFound
    case Some(i) =>
      var versions := rows[i].item.versions;
      if rows[i].item.archivedAt.None? then NotArchived
      else if !dryRun && StopsAt(versions, crash) < |versions| then Crashed
      else Purged200(Report(documentId, versions, at, dryRun, |versions|))
  }

  predicate Purges(rows: seq<Document>, documentId: int, dryRun: bool) {
    !dryRun && Find(rows, documentId).Some? && rows[Find(rows, documentId).value].item.archivedAt.Some?
  }

  function OneRows(rows: seq<Document>, documentId: int, dryRun: bool, at: int, crash: Option<nat>): seq<Document> {
    if Purges(rows, documentId, dryRun) then
      var i := Find(rows, documentId).value;
      rows[i := WithVersions(rows[i], Purge.After(documentId, rows[i].item.versions, Attempt(at, RaisedAt(rows[i].item.versions, crash))))]
    else rows
  }

  function OneDeletes(rows: seq<Document>, documentId: int, dryRun: bool, crash: Option<nat>): seq<Uri> {
    if Purges(rows, documentId, dryRun) then
      var versions := rows[Find(rows, documentId).value].item.versions;
      Deletes(versions, RaisedAt(versions, crash))
    else []
  }

  /** A catalog write of the cascade raises. Purged versions are not written. */
  predicate WriteRaises(versions: seq<Version>, crash: Option<nat>) {
    crash.Some? && crash.value < |versions| && versions[crash.value].status != Purged
  }

  /** 404 exactly for an unknown id, 409 exactly for an active document, and a report of the versions as they were found. */
  predicate Answers(rows: seq<Document>, documentId: int, dryRun: bool, at: int, crash: Option<nat>, outcome: Outcome) {
    && (outcome == NotFound <==> forall i :: 0 <= i < |rows| ==> rows[i].key.id != documentId)
    && forall i :: 0 <= i < |rows| && rows[i].key.id == documentId ==>
         if rows[i].item.archivedAt == None then outcome == NotArchived
         else if !dryRun && WriteRaises(rows[i].item.versions, crash) then outcome == Crashed
         else
           && outcome.Purged200? && |outcome.versions| == |rows[i].item.versions|
           && forall v :: 0 <= v < |outcome.versions| ==> Reports(outcome.versions[v], documentId, rows[i].item.versions[v], at, dryRun)
  }

  /** The first n versions of the row were given tombstones, but for those that had one; nothing else changed. */
  predicate PurgedTo(before: Document, after: Document, at: int, n: nat) {
    && after == before.(item := before.item.(versions := after.item.versions))
    && |after.item.versions| == |before.item.versions|
    && forall v :: 0 <= v < |after.item.versions| ==>
         var was := before.item.versions[v];
         after.item.versions[v] == if v < n && was.status != Purged
                                   then was.(status := Purged, uri := Tombstone(before.key.id, was.id, at)) else was
  }

  /** Only the archived document of that id is changed, and not by a dry run. */
  predicate Leaves(before: seq<Document>, after: seq<Document>, documentId: int, dryRun: bool, at: int, crash: Option<nat>) {
    && |after| == |before|
    && forall i :: 0 <= i < |after| ==>
         if before[i].key.id == documentId && before[i].item.archivedAt != None && !dryRun
         then PurgedTo(before[i], after[i], at, if WriteRaises(before[i].item.versions, crash) then crash.value else |before[i].item.versions|)
         else after[i] == before[i]
  }

  lemma Refusals(rows: seq<Document>, documentId: int, dryRun: bool, at: int, crash: Option<nat>)
    ensures Find(rows, documentId).None? ==> OneOutcome(rows, documentId, dryRun, at, crash) == NotFound
    ensures Find(rows, documentId).Some? && rows[Find(rows, documentId).value].item.archivedAt.None? ==>
              OneOutcome(rows, documentId, dryRun, at, crash) == NotArchived
    ensures Find(rows, documentId).None? || rows[Find(rows, documentId).value].item.archivedAt.None? ==>
              OneRows(rows, documentId, dryRun, at, crash) == rows && OneDeletes(rows, documentId, dryRun, crash) == []
  {
  }

  lemma FoundAt(rows: seq<Document>, i: nat)
    requires WellFormed(rows) && i < |rows|
    ensures Find(rows, rows[i].key.id) == Some(i)
  {
  }

  lemma OneMeans(rows: seq<Document>, documentId: int, dryRun: bool, at: int, crash: Option<nat>)
    requires WellFormed(rows)
    ensures Answers(rows, documentId, dryRun, at, crash, OneOutcome(rows, documentId, dryRun, at, crash))
  {
    hide WellFormed, FindAmong;
    forall i | 0 <= i < |rows| && rows[i].key.id == documentId
      ensures Find(rows, documentId) == Some(i)
    {
      FoundAt(rows, i);
    }
  }

  lemma OneLeaves(rows: seq<Document>, documentId: int, dryRun: bool, at: int, crash: Option<nat>)
    requires WellFormed(rows)
    ensures Leaves(rows, OneRows(rows, documentId, dryRun, at, crash), documentId, dryRun, at, crash)
  {
    hide WellFormed, Find, PurgedTo, RaisedAt, PassedBy, Purge.After;
    var after := OneRows(rows, documentId, dryRun, at, crash);
    forall i | 0 <= i < |rows|
      ensures if rows[i].key.id == documentId && rows[i].item.archivedAt != None && !dryRun
              then PurgedTo(rows[i], after[i], at, if WriteRaises(rows[i].item.versions, crash) then crash.value else |rows[i].item.versions|)
              else after[i] == rows[i]
    {
      FoundAt(rows, i);
      RowPurgedTo(rows[i], at, crash);
    }
  }

  lemma RowPurgedTo(row: Document, at: int, crash: Option<nat>)
    ensures PurgedTo(row, WithVersions(row, Purge.After(row.key.id, row.item.versions, Attempt(at, RaisedAt(row.item.versions, crash)))), at,
                     if WriteRaises(row.item.versions, crash) then crash.value else |row.item.versions|)
  {
  }

  lemma OneDeletesMean(rows: seq<Document>, i: nat, dryRun: bool, crash: Option<nat>)
    requires WellFormed(rows) && i < |rows|
    ensures var versions := rows[i].item.versions;
            OneDeletes(rows, rows[i].key.id, dryRun, crash)
            == if dryRun || rows[i].item.archivedAt == None then []
               else Uris(Keep(versions[..if WriteRaises(versions, crash) then crash.value + 1 else |versions|], Unpurged()))
  {
    hide DistinctVersions, Keep, Uris;
    var versions := rows[i].item.versions;
    assert Find(rows, rows[i].key.id) == Some(i);
    DeletesAreOfUnpurged(versions, if WriteRaises(versions, crash) then crash.value + 1 else |versions|);
  }

  datatype BatchResult = BatchResult(documentId: int, outcome: Outcome)

  datatype BatchReply = BadRequest | Unprocessable | ServerError | Results(results: seq<BatchResult>)

  /** A catalog write that raises: which listed id is being handled, and which of its writes. */
  datatype Crash = Crash(position: nat, write: nat)

  /** A row after a batch got through its first n ids: purged if archived and listed, at its first listing's time. */
  function Settled(row: Document, ids: seq<int>, clock: nat -> int, n: nat): Document {
    var k := FirstIndex(ids, row.key.id);
    if row.item.archivedAt.Some? && k < n && k < |ids| then
      WithVersions(row, EntombedUpTo(row.key.id, row.item.versions, clock(k), |row.item.versions|))
    else row
  }

  function SettledAll(rows: seq<Document>, ids: seq<int>, clock: nat -> int, n: nat): (r: seq<Document>)
    ensures |r| == |rows| && forall i :: 0 <= i < |r| ==> r[i] == Settled(rows[i], ids, clock, n)
  {
    seq(|rows|, i requires 0 <= i < |rows| => Settled(rows[i], ids, clock, n))
  }

  /** What is reported for the id listed at position k, given the table as the batch found it. */
  function BatchOutcome(rows: seq<Document>, ids: seq<int>, clock: nat -> int, dryRun: bool, k: nat): Outcome
    requires k < |ids|
  {
    OneOutcome(if dryRun then rows else SettledAll(rows, ids, clock, k), ids[k], dryRun, clock(k), None)
  }

  function FaultAt(crash: Option<Crash>, n: nat): Option<nat> {
    if crash.Some? && crash.value.position == n then Some(crash.value.write) else None
  }

  /** The write that raises is reached, so the batch ends there. */
  predicate Aborts(rows: seq<Document>, ids: seq<int>, clock: nat -> int, crash: Option<Crash>) {
    && crash.Some? && crash.value.position < |ids|
    && var p := crash.value.position;
       OneOutcome(SettledAll(rows, ids, clock, p), ids[p], false, clock(p), Some(crash.value.write)) == Crashed
  }

  /** One result per listed id, in the order of the list, repetitions included. */
  function BatchResults(rows: seq<Document>, ids: seq<int>, clock: nat -> int, dryRun: bool, n: nat): (r: seq<BatchResult>)
    requires n <= |ids|
    ensures |r| == n
  {
    if n == 0 then []
    else BatchResults(rows, ids, clock, dryRun, n - 1) + [BatchResult(ids[n - 1], BatchOutcome(rows, ids, clock, dryRun, n - 1))]
  }

  /** The storage deletes of the first n ids: those of each listed archived document, once. */
  function BatchDeletes(rows: seq<Document>, ids: seq<int>, n: nat): seq<Uri>
    requires n <= |ids|
  {
    if n == 0 then []
    else
      var found := Find(rows, ids[n - 1]);
      BatchDeletes(rows, ids, n - 1)
      + if found.Some? && rows[found.value].item.archivedAt.Some? && FirstIndex(ids, ids[n - 1]) == n - 1
        then DeletesUpTo(rows[found.value].item.versions, |rows[found.value].item.versions|) else []
  }

  lemma EntombNext(documentId: int, versions: seq<Version>, at: int, n: nat)
    requires n < |versions| && DistinctVersions(versions)
    ensures var partly := EntombedUpTo(documentId, versions, at, n);
            && DistinctVersions(partly) && VersionIndex(partly, versions[n].id) == Some(n)
            && EntombedUpTo(documentId, versions, at, n + 1)
               == if versions[n].status == Purged then partly
                  else partly[n := partly[n].(status := Purged, uri := Tombstone(documentId, versions[n].id, at))]
  {
    var partly := EntombedUpTo(documentId, versions, at, n);
    EntombedDistinct(documentId, versions, at, n);
    assert partly[n] == versions[n];
  }

  lemma StillValid(rows: seq<Document>, documentId: int, i: nat, at: int, n: nat)
    requires WellFormed(rows) && i < |rows|
    ensures var after := rows[i := WithVersions(rows[i], EntombedUpTo(documentId, rows[i].item.versions, at, n))];
            WellFormed(after) && Find(after, rows[i].key.id) == Some(i)
  {
    EntombedDistinct(documentId, rows[i].item.versions, at, n);
    WellFormedById(rows[i := WithVersions(rows[i], EntombedUpTo(documentId, rows[i].item.versions, at, n))], rows);
  }

  lemma SettleNext(row: Document, ids: seq<int>, clock: nat -> int, n: nat)
    requires n < |ids|
    ensures row.key.id != ids[n] || row.item.archivedAt.None? ==> Settled(row, ids, clock, n + 1) == Settled(row, ids, clock, n)
    ensures row.key.id == ids[n] && row.item.archivedAt.Some? ==>
              var before := Settled(row, ids, clock, n);
              && Settled(row, ids, clock, n + 1)
                 == WithVersions(before, Purge.After(row.key.id, before.item.versions, Attempt(clock(n), None)))
              && Deletes(before.item.versions, None)
                 == if FirstIndex(ids, row.key.id) == n then DeletesUpTo(row.item.versions, |row.item.versions|) else []
  {
    var k := FirstIndex(ids, row.key.id);
    if row.key.id == ids[n] && row.item.archivedAt.Some? && k < n {
      var before := Settled(row, ids, clock, n);
      NoDeletes(before.item.versions, |before.item.versions|);
      assert Purge.After(row.key.id, before.item.versions, Attempt(clock(n), None)) == before.item.versions;
    }
  }

  lemma SettledWellFormed(rows: seq<Document>, ids: seq<int>, clock: nat -> int, n: nat)
    requires WellFormed(rows)
    ensures WellFormed(SettledAll(rows, ids, clock, n))
    ensures forall id :: Find(SettledAll(rows, ids, clock, n), id) == Find(rows, id)
  {
    var after := SettledAll(rows, ids, clock, n);
    forall i | 0 <= i < |after|
      ensures after[i].key == rows[i].key && DistinctVersions(after[i].item.versions)
    {
      DistinctById(after[i].item.versions, rows[i].item.versions);
    }
    WellFormedById(after, rows);
  }

  lemma {:induction false} BatchResultAt(rows: seq<Document>, ids: seq<int>, clock: nat -> int, dryRun: bool, n: nat, k: nat)
    requires k < n <= |ids|
    ensures BatchResults(rows, ids, clock, dryRun, n)[k] == BatchResult(ids[k], BatchOutcome(rows, ids, clock, dryRun, k))
  {
    hide BatchOutcome;
    if k < n - 1 {
      BatchResultAt(rows, ids, clock, dryRun, n - 1, k);
    }
  }

  /** Result k names id k and answers for the table as it was, but that a repeated id finds what its first listing left. */
  ghost predicate AnswersAt(rows: seq<Document>, ids: seq<int>, clock: nat -> int, dryRun: bool, k: nat, result: BatchResult)
    requires k < |ids|
  {
    && result.documentId == ids[k]
    && (result.outcome == NotFound <==> forall i :: 0 <= i < |rows| ==> rows[i].key.id != ids[k])
    && forall i :: 0 <= i < |rows| && rows[i].key.id == ids[k] ==>
         if rows[i].item.archivedAt == None then result.outcome == NotArchived
         else
           && result.outcome.Purged200? && |result.outcome.versions| == |rows[i].item.versions|
           && (dryRun || ids[k] !in ids[..k] ==>
                 forall v :: 0 <= v < |result.outcome.versions| ==>
                   Reports(result.outcome.versions[v], ids[k], rows[i].item.versions[v], clock(k), dryRun))
           && (!dryRun ==> forall j :: 0 <= j < k && ids[j] == ids[k] && ids[j] !in ids[..j] ==>
                 forall v :: 0 <= v < |result.outcome.versions| ==>
                   Echoes(result.outcome.versions[v], ids[k], rows[i].item.versions[v], clock(j)))
  }

  /** The version was purged before, at this time if not earlier. */
  predicate Echoes(line: VersionResult, documentId: int, v: Version, at: int) {
    && line.versionId == v.id && line.statusBefore == Status.Purged && line.purgedAt == None
    && line.uriBefore == line.tombstone == (if v.status == Status.Purged then v.uri else Tombstone(documentId, v.id, at))
  }

  lemma BatchLine(rows: seq<Document>, ids: seq<int>, clock: nat -> int, dryRun: bool, k: nat)
    requires WellFormed(rows) && k < |ids|
    ensures AnswersAt(rows, ids, clock, dryRun, k, BatchResult(ids[k], BatchOutcome(rows, ids, clock, dryRun, k)))
  {
    hide WellFormed, OneOutcome, Find, EntombedUpTo, Settled;
    SettledWellFormed(rows, ids, clock, k);
    OneMeans(if dryRun then rows else SettledAll(rows, ids, clock, k), ids[k], dryRun, clock(k), None);
    forall i | 0 <= i < |rows| && rows[i].key.id == ids[k] {
      SettledBefore(rows[i], ids, clock, k);
    }
  }

  /** How a listed row stands when its listing at position k comes: as it was, or purged at the time of its first listing. */
  lemma SettledBefore(row: Document, ids: seq<int>, clock: nat -> int, k: nat)
    requires k < |ids| && row.key.id == ids[k]
    ensures var now := Settled(row, ids, clock, k);
            && now.key == row.key && now.item.archivedAt == row.item.archivedAt && |now.item.versions| == |row.item.versions|
            && (ids[k] !in ids[..k] ==> now == row)
            && (row.item.archivedAt != None ==> forall j :: 0 <= j < k && ids[j] == ids[k] && ids[j] !in ids[..j] ==>
                  now.item.versions == EntombedUpTo(row.key.id, row.item.versions, clock(j), |row.item.versions|))
  {
    hide EntombedUpTo;
    assert FirstIndex(ids, ids[k]) <= k;
    assert ids[k] in ids[..k] ==> FirstIndex(ids, ids[k]) < k;
    forall j | 0 <= j < k && ids[j] == ids[k] && ids[j] !in ids[..j]
      ensures FirstIndex(ids, ids[k]) == j
    {
      assert forall m :: 0 <= m < j ==> ids[m] == ids[..j][m];
    }
  }

  /** What a batch leaves: each listed archived document purged at the time of its first listing, every other row as it was. */
  ghost predicate BatchLeaves(before: seq<Document>, after: seq<Document>, ids: seq<int>, clock: nat -> int) {
    && |after| == |before|
    && forall i :: 0 <= i < |after| ==>
         if before[i].item.archivedAt == None || before[i].key.id !in ids then after[i] == before[i]
         else forall k :: 0 <= k < |ids| && ids[k] == before[i].key.id && ids[k] !in ids[..k] ==>
                PurgedTo(before[i], after[i], clock(k), |before[i].item.versions|)
  }

  lemma SettledMeans(rows: seq<Document>, ids: seq<int>, clock: nat -> int)
    ensures BatchLeaves(rows, SettledAll(rows, ids, clock, |ids|), ids, clock)
  {
    hide EntombedUpTo;
    forall i, k | 0 <= i < |rows| && 0 <= k < |ids| && ids[k] == rows[i].key.id && ids[k] !in ids[..k]
      ensures FirstIndex(ids, rows[i].key.id) == k
    {
      assert forall m :: 0 <= m < k ==> ids[m] == ids[..k][m];
    }
  }

  lemma DryRunChangesNothing(rows: seq<Document>, documentId: int, at: int)
    ensures forall fault :: OneRows(rows, documentId, true, at, fault) == rows && OneDeletes(rows, documentId, true, fault) == []
    ensures forall fault :: OneOutcome(rows, documentId, true, at, fault) == OneOutcome(rows, documentId, true, at, None) != Crashed
  {
  }

  lemma UnreachedFaultIsHarmless(rows: seq<Document>, documentId: int, at: int, fault: Option<nat>)
    ensures OneOutcome(rows, documentId, false, at, None) != Crashed
    ensures OneOutcome(rows, documentId, false, at, fault) != Crashed ==>
              && OneOutcome(rows, documentId, false, at, fault) == OneOutcome(rows, documentId, false, at, None)
              && OneRows(rows, documentId, false, at, fault) == OneRows(rows, documentId, false, at, None)
              && OneDeletes(rows, documentId, false, fault) == OneDeletes(rows, documentId, false, None)
  {
    hide Find, Report, EntombedUpTo, DeletesUpTo, WithVersions;
  }

  lemma AbortsWithin(rows: seq<Document>, ids: seq<int>, clock: nat -> int, crash: Option<Crash>)
    ensures Aborts(rows, ids, clock, crash) ==> crash.Some? && crash.value.position < |ids|
  {
  }

  lemma BatchNext(rows: seq<Document>, ids: seq<int>, clock: nat -> int, n: nat)
    requires WellFormed(rows) && n < |ids|
    ensures var before := SettledAll(rows, ids, clock, n);
            && SettledAll(rows, ids, clock, n + 1) == OneRows(before, ids[n], false, clock(n), None)
            && BatchDeletes(rows, ids, n + 1) == BatchDeletes(rows, ids, n) + OneDeletes(before, ids[n], false, None)
  {
    hide WellFormed, Find, Purge.After, DeletesUpTo, EntombedUpTo;
    SettledWellFormed(rows, ids, clock, n);
    forall i | 0 <= i < |rows|
      ensures rows[i].key.id == ids[n] ==> Find(rows, ids[n]) == Some(i)
    {
      FoundAt(rows, i);
    }
    forall i | 0 <= i < |rows| {
      SettleNext(rows[i], ids, clock, n);
    }
  }

  /**
    The families a batch leaves fully purged are exactly the listed, archived ones that have versions,
    and those fully purged before. A version-less family never counts as purged.
   */
  lemma BatchPurgesListed(row: Document, ids: seq<int>, clock: nat -> int)
    ensures FullyPurged(Settled(row, ids, clock, |ids|).item) <==>
              || FullyPurged(row.item)
              || (row.item.archivedAt.Some? && row.key.id in ids && row.item.versions != [])
  {
    var after := Settled(row, ids, clock, |ids|).item;
    assert row.key.id in ids <==> FirstIndex(ids, row.key.id) < |ids|;
    if FullyPurged(row.item) {
      assert forall v :: 0 <= v < |after.versions| ==> after.versions[v].status == Purged;
    }
  }

  /** A batch, and so also the repetition of one that was aborted, overwrites no tombstone it finds. */
  lemma BatchKeepsTombstones(row: Document, ids: seq<int>, clock: nat -> int, n: nat, v: nat)
    requires v < |row.item.versions| && row.item.versions[v].status == Purged
    ensures |Settled(row, ids, clock, n).item.versions| == |row.item.versions|
    ensures Settled(row, ids, clock, n).item.versions[v] == row.item.versions[v]
  {
  }

  /** Each listing of an archived document, repeated or not, reports the tombstones that end up stored. */
  lemma BatchReportsStored(rows: seq<Document>, ids: seq<int>, clock: nat -> int, k: nat, i: nat)
    requires WellFormed(rows)
    requires k < |ids| && Find(rows, ids[k]) == Some(i) && rows[i].item.archivedAt.Some?
    ensures var outcome := BatchOutcome(rows, ids, clock, false, k);
            var stored := Settled(rows[i], ids, clock, |ids|).item.versions;
            && outcome.Purged200? && |outcome.versions| == |stored|
            && forall v :: 0 <= v < |stored| ==>
                 outcome.versions[v].versionId == stored[v].id && outcome.versions[v].tombstone == stored[v].uri
  {
    hide WellFormed, Find, DistinctVersions;
    SettledWellFormed(rows, ids, clock, k);
    var now := Settled(rows[i], ids, clock, k).item.versions;
    var stored := Settled(rows[i], ids, clock, |ids|).item.versions;
    forall v | 0 <= v < |stored|
      ensures Entombed(ids[k], now[v], clock(k)) == stored[v]
    {
      assert FirstIndex(ids, ids[k]) <= k;
    }
  }

  // ----- Orbital: purging everything active -----

  /** What goes wrong, if anything, while the cascade handles one document. */
  datatype Trouble = Smooth | ReadFails | ArchiveFails | WriteFails(version: nat)

  datatype Plan = Plan(trouble: Trouble, archiveAt: int, purgeAt: int)

  datatype OrbitalResult = OrbitalResult(documentId: int, archivedAt: Option<int>, versions: seq<VersionResult>)

  datatype OrbitalReply = Unconfirmed | WrongPhrase | Swept(purged: nat, failed: nat, results: seq<OrbitalResult>, failures: seq<int>)

  function CrashOf(trouble: Trouble): Option<nat> {
    if trouble.WriteFails? then Some(trouble.version) else None
  }

  /** Archiving again keeps the time of the first archiving. */
  function Archived(row: Document, at: int): Document {
    if row.item.archivedAt.None? then row.(item := row.item.(archivedAt := Some(at))) else row
  }

  /** Whether the cascade gets as far as purging. */
  predicate Archives(row: Document, trouble: Trouble) {
    !trouble.ReadFails? && (trouble.ArchiveFails? ==> row.item.archivedAt.Some?)
  }

  predicate Succeeds(row: Document, plan: Plan) {
    Archives(row, plan.trouble) && StopsAt(row.item.versions, CrashOf(plan.trouble)) == |row.item.versions|
  }

  /** A row after the cascade went over it. */
  function Cascaded(row: Document, plan: Plan): Document {
    if Archives(row, plan.trouble) then
      WithVersions(Archived(row, plan.archiveAt),
                   Purge.After(row.key.id, row.item.versions, Attempt(plan.purgeAt, RaisedAt(row.item.versions, CrashOf(plan.trouble)))))
    else row
  }

  function Cascades(plans: int -> Plan): Document -> Document {
    (row: Document) => Cascaded(row, plans(row.key.id))
  }

  /** The table once a sweep got through its first n ids. */
  function SweptAll(rows: seq<Document>, ids: seq<int>, plans: int -> Plan, n: nat): (r: seq<Document>)
    requires n <= |ids|
    ensures |r| == |rows|
    ensures forall i :: 0 <= i < |r| ==>
              r[i] == if FirstIndex(ids, rows[i].key.id) < n then Cascaded(rows[i], plans(rows[i].key.id)) else rows[i]
  {
    Rewritten(rows, ids, Cascades(plans), n)
  }

  function CascadeResult(row: Document, plan: Plan): OrbitalResult {
    OrbitalResult(row.key.id, Archived(row, plan.archiveAt).item.archivedAt,
                  Report(row.key.id, row.item.versions, plan.purgeAt, false, |row.item.versions|))
  }

  function CascadeDeletes(row: Document, plan: Plan): seq<Uri> {
    if Archives(row, plan.trouble) then Deletes(row.item.versions, RaisedAt(row.item.versions, CrashOf(plan.trouble))) else []
  }

  /** Orbital's cascade written out: what it takes to succeed, what it answers then, and the row it leaves either way. */
  lemma CascadeMeans(row: Document, plan: Plan)
    ensures var archives := plan.trouble != ReadFails && (plan.trouble != ArchiveFails || row.item.archivedAt != None);
            var crash := if plan.trouble.WriteFails? then Some(plan.trouble.version) else None;
            var archivedAt := if row.item.archivedAt != None then row.item.archivedAt else Some(plan.archiveAt);
            && (Succeeds(row, plan) <==> archives && !WriteRaises(row.item.versions, crash))
            && CascadeResult(row, plan).documentId == row.key.id && CascadeResult(row, plan).archivedAt == archivedAt
            && |CascadeResult(row, plan).versions| == |row.item.versions|
            && (forall v :: 0 <= v < |row.item.versions| ==>
                  Reports(CascadeResult(row, plan).versions[v], row.key.id, row.item.versions[v], plan.purgeAt, false))
            && if !archives then Cascaded(row, plan) == row && CascadeDeletes(row, plan) == []
               else
                 && PurgedTo(row.(item := row.item.(archivedAt := archivedAt)), Cascaded(row, plan), plan.purgeAt,
                             if WriteRaises(row.item.versions, crash) then crash.value else |row.item.versions|)
                 && CascadeDeletes(row, plan)
                    == Uris(Keep(row.item.versions[..if WriteRaises(row.item.versions, crash) then crash.value + 1 else |row.item.versions|], Unpurged()))
  {
    hide Keep, Uris, DeletesUpTo;
    var crash := if plan.trouble.WriteFails? then Some(plan.trouble.version) else None;
    DeletesAreOfUnpurged(row.item.versions, if WriteRaises(row.item.versions, crash) then crash.value + 1 else |row.item.versions|);
  }

  /** The snapshot `[doc.id for doc in list_documents()]`. */
  function ActiveIds(rows: seq<Document>): seq<int> {
    Ids(Listing(rows, {Everything}))
  }

  function Successes(rows: seq<Document>, ids: seq<int>, plans: int -> Plan, n: nat): seq<OrbitalResult>
    requires Enumerates(ids, rows) && n <= |ids|
  {
    if n == 0 then []
    else
      var row := RowOf(rows, ids, n - 1);
      Successes(rows, ids, plans, n - 1) + if Succeeds(row, plans(ids[n - 1])) then [CascadeResult(row, plans(ids[n - 1]))] else []
  }

  function Failures(rows: seq<Document>, ids: seq<int>, plans: int -> Plan, n: nat): seq<int>
    requires Enumerates(ids, rows) && n <= |ids|
  {
    if n == 0 then []
    else Failures(rows, ids, plans, n - 1) + if Succeeds(RowOf(rows, ids, n - 1), plans(ids[n - 1])) then [] else [ids[n - 1]]
  }

  function SweepDeletes(rows: seq<Document>, ids: seq<int>, plans: int -> Plan, n: nat): seq<Uri>
    requires Enumerates(ids, rows) && n <= |ids|
  {
    if n == 0 then []
    else SweepDeletes(rows, ids, plans, n - 1) + CascadeDeletes(RowOf(rows, ids, n - 1), plans(ids[n - 1]))
  }

  /** The snapshot lists each active document once, and nothing else. */
  lemma ActiveIdsEnumerate(rows: seq<Document>)
    requires WellFormed(rows)
    ensures Enumerates(ActiveIds(rows), rows)
    ensures forall i :: 0 <= i < |rows| ==> (rows[i].key.id in ActiveIds(rows) <==> rows[i].item.archivedAt.None?)
  {
    hide WellFormed, Find, Listing;
    WellFormedDistinct(rows);
    ListingAscends(rows, {Everything});
    forall d: Document
      ensures d in Listing(rows, {Everything}) <==> d in rows && d.item.archivedAt.None?
    {
      InListing(rows, {Everything}, d);
      assert Reaches(Everything, d.item) <==> d.item.archivedAt.None?;
    }
    ListingEnumerates(rows, Listing(rows, {Everything}));
  }

  lemma ArchivedWellFormed(rows: seq<Document>, i: nat, at: int)
    requires WellFormed(rows) && i < |rows|
    ensures WellFormed(rows[i := Archived(rows[i], at)]) && Find(rows[i := Archived(rows[i], at)], rows[i].key.id) == Some(i)
  {
    WellFormedById(rows[i := Archived(rows[i], at)], rows);
  }

  lemma SweepNext(rows: seq<Document>, ids: seq<int>, plans: int -> Plan, n: nat)
    requires WellFormed(rows) && Enumerates(ids, rows) && n < |ids|
    ensures var before := SweptAll(rows, ids, plans, n);
            var found := Find(rows, ids[n]);
            && found.Some? && Find(before, ids[n]) == found && before[found.value] == RowOf(rows, ids, n)
            && SweptAll(rows, ids, plans, n + 1) == before[found.value := Cascaded(RowOf(rows, ids, n), plans(ids[n]))]
  {
    hide WellFormed, Enumerates, Find, FirstIndex, RowOf, Purge.After;
    forall row: Document
      ensures Cascades(plans)(row).key == row.key
    {
      assert Cascades(plans)(row) == Cascaded(row, plans(row.key.id));
    }
    RewriteNext(rows, ids, Cascades(plans), n);
  }

  lemma {:induction false} SweepListsOnly(rows: seq<Document>, ids: seq<int>, plans: int -> Plan, n: nat)
    requires Enumerates(ids, rows) && n <= |ids|
    ensures |Successes(rows, ids, plans, n)| + |Failures(rows, ids, plans, n)| == n
    ensures forall id :: id in Failures(rows, ids, plans, n) ==> id in ids[..n]
    ensures forall r :: r in Successes(rows, ids, plans, n) ==> r.documentId in ids[..n]
  {
    hide Enumerates, RowOf, Succeeds, Report;
    if n > 0 {
      SweepListsOnly(rows, ids, plans, n - 1);
      assert ids[..n] == ids[..n - 1] + [ids[n - 1]];
    }
  }

  /**
    Every snapshot id ends up in exactly one of results and failures: in results exactly when its
    cascade ran to the end.
   */
  lemma {:induction false} SweepPartitions(rows: seq<Document>, ids: seq<int>, plans: int -> Plan, n: nat, k: nat)
    requires Enumerates(ids, rows) && k < n <= |ids|
    ensures Succeeds(RowOf(rows, ids, k), plans(ids[k])) ==>
              && CascadeResult(RowOf(rows, ids, k), plans(ids[k])) in Successes(rows, ids, plans, n)
              && ids[k] !in Failures(rows, ids, plans, n)
    ensures !Succeeds(RowOf(rows, ids, k), plans(ids[k])) ==>
              && ids[k] in Failures(rows, ids, plans, n)
              && forall r :: r in Successes(rows, ids, plans, n) ==> r.documentId != ids[k]
  {
    hide Enumerates, RowOf, Succeeds, Report;
    ListedOnce(rows, ids, k);
    if k < n - 1 {
      SweepPartitions(rows, ids, plans, n - 1, k);
    } else {
      SweepListsOnly(rows, ids, plans, k);
    }
  }

  /** A success archives the document, purges all its versions and reports the stored tombstones. */
  lemma SuccessPurges(row: Document, plan: Plan)
    requires Succeeds(row, plan)
    ensures var after := Cascaded(row, plan).item;
            && after.archivedAt == CascadeResult(row, plan).archivedAt != None
            && AllPurged(after.versions)
            && |after.versions| == |CascadeResult(row, plan).versions|
            && forall v :: 0 <= v < |after.versions| ==> CascadeResult(row, plan).versions[v].tombstone == after.versions[v].uri
  {
  }

  // ----- The routes and the state machine -----

  /** Every version the cascade gets past is in a predecessor of PURGED. */
  predicate MayPurge(row: Document, plan: Plan) {
    Archives(row, plan.trouble) ==>
      forall i :: 0 <= i < StopsAt(row.item.versions, CrashOf(plan.trouble)) ==> row.item.versions[i].status in Predecessors(Purged)
  }

  /** For every plan, interrupted ones included: Orbital's cascade keeps to the table exactly under that condition. */
  lemma OrbitalLegality(row: Document, plan: Plan)
    ensures LegalRewrite(row.item.versions, Cascaded(row, plan).item.versions) <==> MayPurge(row, plan)
  {
    hide LegalRewrite, Purge.After, RaisedAt;
    if Archives(row, plan.trouble) {
      AttemptLegality(row.key.id, row.item.versions, Attempt(plan.purgeAt, RaisedAt(row.item.versions, CrashOf(plan.trouble))));
    } else {
      UnchangedIsLegal(row.item.versions);
    }
  }

  lemma UnchangedIsLegal(versions: seq<Version>)
    ensures LegalRewrite(versions, versions)
  {
  }

  /** The table a whole sweep leaves. */
  function Sweep(rows: seq<Document>, plans: int -> Plan): (r: seq<Document>)
    ensures |r| == |rows|
  {
    SweptAll(rows, ActiveIds(rows), plans, |ActiveIds(rows)|)
  }

  /** The whole sweep keeps to the table if and only if every active document's cascade may. */
  lemma SweepLegality(rows: seq<Document>, plans: int -> Plan)
    requires WellFormed(rows)
    ensures (forall j :: 0 <= j < |rows| ==> LegalRewrite(rows[j].item.versions, Sweep(rows, plans)[j].item.versions))
       <==> (forall j :: 0 <= j < |rows| && rows[j].item.archivedAt.None? ==> MayPurge(rows[j], plans(rows[j].key.id)))
  {
    hide WellFormed, ActiveIds, Enumerates, LegalRewrite, MayPurge, Cascaded;
    var ids := ActiveIds(rows);
    ActiveIdsEnumerate(rows);
    forall j | 0 <= j < |rows|
      ensures LegalRewrite(rows[j].item.versions, Sweep(rows, plans)[j].item.versions) <==>
                (rows[j].item.archivedAt.None? ==> MayPurge(rows[j], plans(rows[j].key.id)))
    {
      OrbitalLegality(rows[j], plans(rows[j].key.id));
      UnchangedIsLegal(rows[j].item.versions);
    }
  }

  /** Orbital archives and purges a version in the middle of its extraction, from which no edge leads to PURGED. */
  lemma OrbitalPurgesMidExtraction() returns (rows: seq<Document>, plans: int -> Plan)
    ensures WellFormed(rows) && |rows| == 1 && rows[0].item.archivedAt.None?
    ensures |rows[0].item.versions| == 1 && rows[0].item.versions[0].status == Extracting
    ensures var after := Cascaded(rows[0], plans(rows[0].key.id)).item;
            Succeeds(rows[0], plans(rows[0].key.id)) && AllPurged(after.versions) && !LegalRewrite(rows[0].item.versions, after.versions)
  {
    var v := Version(7, 1, "a.pdf", Object(1), Extracting);
    rows := [Row(Key(0, 1), Family("a.pdf", 7, None, [v], {}))];
    plans := id => Plan(Smooth, 10, 11);
    var after := Cascaded(rows[0], plans(1)).item.versions;
    assert after[0].status == Purged && after[0] != v;
  }

  class Admin {
    var rows: seq<Document>
    var deletes: seq<Uri>

    predicate Valid()
      reads this
    {
      WellFormed(rows)
    }

    /** `purge_version_artifacts`: writes a tombstone over one version, unless it is purged already. */
    method PurgeVersionArtifacts(documentId: int, versionId: int, tombstone: Uri, fails: bool) returns (ok: bool)
      modifies `rows
      ensures match Find(old(rows), documentId)
              case None => !ok && rows == old(rows)
              case Some(i) =>
                var versions := old(rows)[i].item.versions;
                match VersionIndex(versions, versionId)
                case None => !ok && rows == old(rows)
                case Some(j) =>
                  if versions[j].status == Purged then ok && rows == old(rows)
                  else ok == !fails && rows == if fails then old(rows)
                    else old(rows)[i := WithVersions(old(rows)[i], versions[j := versions[j].(status := Purged, uri := tombstone)])]
    {
      var document := Find(rows, documentId);
      if document.None? {
        return false;
      }
      var i := document.value;
      var version := VersionIndex(rows[i].item.versions, versionId);
      if version.None? {
        return false;
      }
      var j := version.value;
      if rows[i].item.versions[j].status == Purged {
        return true;
      }
      if fails {
        return false;
      }
      rows := rows[i := WithVersions(rows[i], rows[i].item.versions[j := rows[i].item.versions[j].(status := Purged, uri := tombstone)])];
      return true;
    }

    /** `_purge_one_document`. */
    method PurgeOneDocument(documentId: int, dryRun: bool, at: int, crash: Option<nat>) returns (outcome: Outcome)
      requires Valid()
      modifies this
      ensures Valid()
      ensures outcome == OneOutcome(old(rows), documentId, dryRun, at, crash)
      ensures rows == OneRows(old(rows), documentId, dryRun, at, crash)
      ensures deletes == old(deletes) + OneDeletes(old(rows), documentId, dryRun, crash)
      ensures Answers(old(rows), documentId, dryRun, at, crash, outcome) && Leaves(old(rows), rows, documentId, dryRun, at, crash)
    {
      hide WellFormed, OneRows, OneDeletes, OneOutcome, Answers, Leaves;
      OneMeans(rows, documentId, dryRun, at, crash);
      OneLeaves(rows, documentId, dryRun, at, crash);
      Refusals(rows, documentId, dryRun, at, crash);
      var document := Find(rows, documentId);
      if document.None? {
        return NotFound;
      }
      if rows[document.value].item.archivedAt.None? {
        return NotArchived;
      }
      outcome := PurgeVersions(documentId, document.value, dryRun, at, crash);
    }

    /** The state once the loop got through the first n versions of row i of `start`. A dry run changes nothing. */
    ghost predicate Reached(start: seq<Document>, attempted: seq<Uri>, i: nat, dryRun: bool, at: int, n: nat)
      requires i < |start| && n <= |start[i].item.versions|
      reads this
    {
      var row := start[i];
      if dryRun then rows == start && deletes == attempted
      else
        && rows == start[i := WithVersions(row, EntombedUpTo(row.key.id, row.item.versions, at, n))]
        && deletes == attempted + DeletesUpTo(row.item.versions, n)
    }

    /** One round of the loop: storage delete first, then the catalog write. */
    method PurgeNext(ghost start: seq<Document>, ghost attempted: seq<Uri>, documentId: int, ghost i: nat, version: Version,
                     ghost n: nat, dryRun: bool, at: int, fails: bool)
      returns (ok: bool, result: VersionResult)
      requires WellFormed(start) && i < |start| && start[i].key.id == documentId
      requires n < |start[i].item.versions| && version == start[i].item.versions[n]
      requires Reached(start, attempted, i, dryRun, at, n)
      modifies this
      ensures ok <==> dryRun || version.status == Purged || !fails
      ensures ok ==> result == Line(documentId, version, at, dryRun) && Reached(start, attempted, i, dryRun, at, n + 1)
      ensures !ok ==>
                && rows == start[i := WithVersions(start[i], EntombedUpTo(documentId, start[i].item.versions, at, n))]
                && deletes == attempted + DeletesUpTo(start[i].item.versions, n + 1)
    {
      hide DistinctVersions, Find, EntombedUpTo;
      ghost var versions := start[i].item.versions;
      var tombstone := Tombstone(documentId, version.id, at);
      EntombNext(documentId, versions, at, n);
      if version.status == Purged {
        return true, VersionResult(version.id, version.status, version.uri, version.uri, None);
      }
      if dryRun {
        return true, VersionResult(version.id, version.status, version.uri, tombstone, None);
      }
      StillValid(start, documentId, i, at, n);
      deletes := deletes + [version.uri];
      ok := PurgeVersionArtifacts(documentId, version.id, tombstone, fails);
      result := VersionResult(version.id, version.status, version.uri, tombstone, Some(at));
    }

    /** The loop of `_purge_one_document` over the document's versions. */
    method PurgeVersions(documentId: int, i: nat, dryRun: bool, at: int, crash: Option<nat>) returns (outcome: Outcome)
      requires Valid() && Find(rows, documentId) == Some(i) && rows[i].item.archivedAt.Some?
      modifies this
      ensures Valid()
      ensures outcome == OneOutcome(old(rows), documentId, dryRun, at, crash)
      ensures rows == OneRows(old(rows), documentId, dryRun, at, crash)
      ensures deletes == old(deletes) + OneDeletes(old(rows), documentId, dryRun, crash)
    {
      hide Reached, OneRows, OneDeletes, OneOutcome, WellFormed, Find, DeletesUpTo, EntombedUpTo, WithVersions;
      ghost var start, attempted := rows, deletes;
      var versions := rows[i].item.versions;
      var results: seq<VersionResult> := [];
      var n := 0;
      Unreached(i, dryRun, at);
      while n < |versions|
        invariant n <= |versions|
        invariant results == Report(documentId, versions, at, dryRun, n)
        invariant Reached(start, attempted, i, dryRun, at, n)
        invariant dryRun || n <= StopsAt(versions, crash)
      {
        var ok, result := PurgeNext(start, attempted, documentId, i, versions[n], n, dryRun, at, crash == Some(n));
        if !ok {
          Stopped(start, attempted, i, at, crash);
          return Crashed;
        }
        results := results + [result];
        n := n + 1;
      }
      Finished(start, attempted, i, dryRun, at, crash);
      return Purged200(results);
    }

    lemma Unreached(i: nat, dryRun: bool, at: int)
      requires i < |rows|
      ensures Reached(rows, deletes, i, dryRun, at, 0)
    {
      assert EntombedUpTo(rows[i].key.id, rows[i].item.versions, at, 0) == rows[i].item.versions;
      assert WithVersions(rows[i], rows[i].item.versions) == rows[i];
      assert DeletesUpTo(rows[i].item.versions, 0) == [];
    }

    lemma Finished(start: seq<Document>, attempted: seq<Uri>, i: nat, dryRun: bool, at: int, crash: Option<nat>)
      requires WellFormed(start) && i < |start| && Find(start, start[i].key.id) == Some(i) && start[i].item.archivedAt.Some?
      requires Reached(start, attempted, i, dryRun, at, |start[i].item.versions|)
      requires dryRun || StopsAt(start[i].item.versions, crash) == |start[i].item.versions|
      ensures WellFormed(rows) && rows == OneRows(start, start[i].key.id, dryRun, at, crash)
      ensures deletes == attempted + OneDeletes(start, start[i].key.id, dryRun, crash)
      ensures OneOutcome(start, start[i].key.id, dryRun, at, crash)
              == Purged200(Report(start[i].key.id, start[i].item.versions, at, dryRun, |start[i].item.versions|))
    {
      hide WellFormed, Find, EntombedUpTo, Report, WithVersions;
      StillValid(start, start[i].key.id, i, at, |start[i].item.versions|);
    }

    lemma Stopped(start: seq<Document>, attempted: seq<Uri>, i: nat, at: int, crash: Option<nat>)
      requires WellFormed(start) && i < |start| && Find(start, start[i].key.id) == Some(i) && start[i].item.archivedAt.Some?
      requires StopsAt(start[i].item.versions, crash) < |start[i].item.versions|
      requires var n := StopsAt(start[i].item.versions, crash);
               && rows == start[i := WithVersions(start[i], EntombedUpTo(start[i].key.id, start[i].item.versions, at, n))]
               && deletes == attempted + DeletesUpTo(start[i].item.versions, n + 1)
      ensures WellFormed(rows) && rows == OneRows(start, start[i].key.id, false, at, crash)
      ensures deletes == attempted + OneDeletes(start, start[i].key.id, false, crash)
      ensures OneOutcome(start, start[i].key.id, false, at, crash) == Crashed
    {
      hide WellFormed, Find, EntombedUpTo, Report, WithVersions;
      StillValid(start, start[i].key.id, i, at, StopsAt(start[i].item.versions, crash));
    }

    /** The state once a batch got through its first n ids. A dry run changes nothing. */
    ghost predicate Batched(start: seq<Document>, attempted: seq<Uri>, ids: seq<int>, clock: nat -> int, dryRun: bool, n: nat)
      requires n <= |ids|
      reads this
    {
      if dryRun then rows == start && deletes == attempted
      else rows == SettledAll(start, ids, clock, n) && deletes == attempted + BatchDeletes(start, ids, n)
    }

    lemma Unbatched(ids: seq<int>, clock: nat -> int, dryRun: bool)
      ensures Batched(rows, deletes, ids, clock, dryRun, 0)
    {
      assert SettledAll(rows, ids, clock, 0) == rows;
      assert deletes == deletes + BatchDeletes(rows, ids, 0);
    }

    lemma Rebatched(start: seq<Document>, attempted: seq<Uri>, ids: seq<int>, clock: nat -> int, dryRun: bool)
      requires Batched(start, attempted, ids, clock, dryRun, |ids|)
      ensures rows == if dryRun then start else SettledAll(start, ids, clock, |ids|)
      ensures deletes == if dryRun then attempted else attempted + BatchDeletes(start, ids, |ids|)
    {
    }

    method PurgeListed(ghost start: seq<Document>, ghost attempted: seq<Uri>, ids: seq<int>, clock: nat -> int, dryRun: bool,
                       crash: Option<Crash>, n: nat)
      returns (outcome: Outcome)
      requires WellFormed(start) && Valid() && n < |ids| && Batched(start, attempted, ids, clock, dryRun, n)
      modifies this
      ensures Valid()
      ensures outcome == Crashed ==>
                && !dryRun && Aborts(start, ids, clock, crash) && crash.value.position == n
                && rows == OneRows(SettledAll(start, ids, clock, n), ids[n], false, clock(n), FaultAt(crash, n))
                && deletes == attempted + BatchDeletes(start, ids, n)
                              + OneDeletes(SettledAll(start, ids, clock, n), ids[n], false, FaultAt(crash, n))
      ensures outcome != Crashed ==>
                && (dryRun || !(Aborts(start, ids, clock, crash) && crash.value.position == n))
                && Batched(start, attempted, ids, clock, dryRun, n + 1)
                && outcome == BatchOutcome(start, ids, clock, dryRun, n)
    {
      hide SettledAll, OneOutcome, BatchDeletes, WellFormed, OneRows, OneDeletes;
      BatchNext(start, ids, clock, n);
      ghost var before, fault := rows, FaultAt(crash, n);
      outcome := PurgeOneDocument(ids[n], dryRun, clock(n), FaultAt(crash, n));
      if dryRun {
        DryRunChangesNothing(before, ids[n], clock(n));
        assert deletes == attempted + [];
      } else {
        UnreachedFaultIsHarmless(before, ids[n], clock(n), fault);
        Regroup(attempted, BatchDeletes(start, ids, n), OneDeletes(before, ids[n], dryRun, fault));
      }
    }

    /**
      `purge_batch`. The id at position k is handled at time clock(k). A catalog write that raises ends the request
      with 500 after the ids before it.
     */
    method PurgeBatch(ids: seq<int>, confirm: bool, dryRun: bool, clock: nat -> int, crash: Option<Crash>) returns (reply: BatchReply)
      requires Valid()
      modifies this
      ensures Valid()
      ensures reply == if dryRun && confirm then BadRequest
                       else if (!dryRun && !confirm) || |ids| > 100 then Unprocessable
                       else if !dryRun && Aborts(old(rows), ids, clock, crash) then ServerError
                       else Results(BatchResults(old(rows), ids, clock, dryRun, |ids|))
      ensures reply.BadRequest? || reply.Unprocessable? || dryRun ==> rows == old(rows) && deletes == old(deletes)
      ensures reply.Results? && !dryRun ==>
                && rows == SettledAll(old(rows), ids, clock, |ids|)
                && deletes == old(deletes) + BatchDeletes(old(rows), ids, |ids|)
      ensures reply.ServerError? ==>
                var p, fault := crash.value.position, Some(crash.value.write);
                var reached := SettledAll(old(rows), ids, clock, p);
                && rows == OneRows(reached, ids[p], false, clock(p), fault)
                && deletes == old(deletes) + BatchDeletes(old(rows), ids, p) + OneDeletes(reached, ids[p], false, fault)
      ensures reply.Results? ==>
                && |reply.results| == |ids|
                && (forall k :: 0 <= k < |ids| ==> AnswersAt(old(rows), ids, clock, dryRun, k, reply.results[k]))
                && (!dryRun ==> BatchLeaves(old(rows), rows, ids, clock))
    {
      hide Batched, WellFormed, BatchOutcome, SettledAll, BatchDeletes, Aborts, OneRows, OneDeletes, AnswersAt, BatchLeaves;
      if dryRun && confirm {
        return BadRequest;
      }
      if !dryRun && !confirm {
        return Unprocessable;
      }
      if |ids| > BATCH_MAX {
        return Unprocessable;
      }
      ghost var start, attempted := rows, deletes;
      var results: seq<BatchResult> := [];
      var n := 0;
      Unbatched(ids, clock, dryRun);
      AbortsWithin(start, ids, clock, crash);
      while n < |ids|
        invariant n <= |ids| && Valid()
        invariant results == BatchResults(start, ids, clock, dryRun, n)
        invariant Batched(start, attempted, ids, clock, dryRun, n)
        invariant !dryRun && Aborts(start, ids, clock, crash) ==> n <= crash.value.position
      {
        var outcome := PurgeListed(start, attempted, ids, clock, dryRun, crash, n);
        if outcome == Crashed {
          return ServerError;
        }
        results := results + [BatchResult(ids[n], outcome)];
        n := n + 1;
      }
      Rebatched(start, attempted, ids, clock, dryRun);
      SettledMeans(start, ids, clock);
      forall k | 0 <= k < |ids|
        ensures AnswersAt(start, ids, clock, dryRun, k, results[k])
      {
        BatchResultAt(start, ids, clock, dryRun, |ids|, k);
        BatchLine(start, ids, clock, dryRun, k);
      }
      return Results(results);
    }

    /** `_orbital_purge_one`; None where it raises. The best-effort cleanup of the graph store is not modelled. */
    method OrbitalPurgeOne(documentId: int, plan: Plan) returns (result: Option<OrbitalResult>)
      requires Valid()
      modifies this
      ensures Valid()
      ensures match Find(old(rows), documentId)
              case None => result == None && rows == old(rows) && deletes == old(deletes)
              case Some(i) =>
                && rows == old(rows)[i := Cascaded(old(rows)[i], plan)]
                && deletes == old(deletes) + CascadeDeletes(old(rows)[i], plan)
                && result == if Succeeds(old(rows)[i], plan) then Some(CascadeResult(old(rows)[i], plan)) else None
    {
      hide WellFormed, DistinctVersions, Find, Purge.After, Deletes, Report, PassedBy;
      var document := Find(rows, documentId);
      if document.None? {
        return None;
      }
      if plan.trouble.ReadFails? {
        return None;
      }
      var i := document.value;
      if rows[i].item.archivedAt.None? {
        if plan.trouble.ArchiveFails? {
          return None;
        }
        ArchivedWellFormed(rows, i, plan.archiveAt);
        rows := rows[i := rows[i].(item := rows[i].item.(archivedAt := Some(plan.archiveAt)))];
      }
      var archivedAt := rows[i].item.archivedAt;
      var outcome := PurgeOneDocument(documentId, false, plan.purgeAt, CrashOf(plan.trouble));
      return if outcome.Purged200? then Some(OrbitalResult(documentId, archivedAt, outcome.versions)) else None;
    }

    /** The state once a sweep got through its first n ids. */
    ghost predicate SweptTo(start: seq<Document>, attempted: seq<Uri>, ids: seq<int>, plans: int -> Plan, n: nat)
      requires Enumerates(ids, start) && n <= |ids|
      reads this
    {
      rows == SweptAll(start, ids, plans, n) && deletes == attempted + SweepDeletes(start, ids, plans, n)
    }

    lemma Unswept(ids: seq<int>, plans: int -> Plan)
      requires Enumerates(ids, rows)
      ensures SweptTo(rows, deletes, ids, plans, 0)
    {
      hide Enumerates, FirstIndex;
      assert SweptAll(rows, ids, plans, 0) == rows;
      assert deletes == deletes + SweepDeletes(rows, ids, plans, 0);
    }

    method OrbitalNext(ghost start: seq<Document>, ghost attempted: seq<Uri>, ids: seq<int>, plans: int -> Plan, n: nat)
      returns (result: Option<OrbitalResult>)
      requires WellFormed(start) && Enumerates(ids, start) && n < |ids|
      requires Valid() && SweptTo(start, attempted, ids, plans, n)
      modifies this
      ensures Valid() && SweptTo(start, attempted, ids, plans, n + 1)
      ensures var row, plan := RowOf(start, ids, n), plans(ids[n]);
              result == if Succeeds(row, plan) then Some(CascadeResult(row, plan)) else None
    {
      hide SweptAll, WellFormed, Cascaded, CascadeDeletes, CascadeResult, Succeeds, Find, FirstIndex, Enumerates, RowOf;
      SweepNext(start, ids, plans, n);
      Regroup(attempted, SweepDeletes(start, ids, plans, n), CascadeDeletes(RowOf(start, ids, n), plans(ids[n])));
      result := OrbitalPurgeOne(ids[n], plans(ids[n]));
    }

    /** `orbital_purge_all`. The active ids are snapshot up front; a failing document is recorded and skipped. */
    method OrbitalPurgeAll(confirm: bool, phraseMatches: bool, plans: int -> Plan) returns (reply: OrbitalReply)
      requires Valid()
      modifies this
      ensures Valid()
      ensures reply.Unconfirmed? <==> !confirm
      ensures reply.WrongPhrase? <==> confirm && !phraseMatches
      ensures !reply.Swept? ==> rows == old(rows) && deletes == old(deletes)
      ensures Enumerates(ActiveIds(old(rows)), old(rows))
      ensures reply.Swept? ==>
                var ids := ActiveIds(old(rows));
                && SweptTo(old(rows), old(deletes), ids, plans, |ids|)
                && reply.results == Successes(old(rows), ids, plans, |ids|)
                && reply.failures == Failures(old(rows), ids, plans, |ids|)
                && reply.purged == |reply.results| && reply.failed == |reply.failures| && reply.purged + reply.failed == |ids|
    {
      hide SweptTo, Find, FirstIndex, SweptAll, WellFormed, ActiveIds, Cascaded, CascadeResult, Succeeds, Enumerates, RowOf;
      ActiveIdsEnumerate(rows);
      if !confirm {
        return Unconfirmed;
      }
      if !phraseMatches {
        return WrongPhrase;
      }
      ghost var start, attempted := rows, deletes;
      var ids := ActiveIds(rows);
      var results: seq<OrbitalResult>, failures: seq<int> := [], [];
      var n := 0;
      Unswept(ids, plans);
      while n < |ids|
        invariant n <= |ids| && Valid() && SweptTo(start, attempted, ids, plans, n)
        invariant results == Successes(start, ids, plans, n) && failures == Failures(start, ids, plans, n)
      {
        var result := OrbitalNext(start, attempted, ids, plans, n);
        if result.Some? {
          results := results + [result.value];
        } else {
          failures := failures + [ids[n]];
        }
        n := n + 1;
      }
      SweepListsOnly(start, ids, plans, n);
      return Swept(|results|, |failures|, results, failures);
    }
  }
}
