/**
  The scan for stuck extractions, which boot, the periodic task and the administrators' route all run. It finds a version
  through the latest version of its family: it lists the active families whose latest version is stuck, and fails every
  stuck version of those.
 */
module StuckScan {
  import opened Wrappers
  import opened Keyset
  import opened Lifecycle
  import opened Catalog
  import opened CatalogTable
  import opened DocumentListing

  const STUCK: set<Status> := {QueuedForExtraction, Extracting}

  /** `list_documents(status_filter=_STUCK_STATES)` returns the family. */
  predicate Listed(family: Family) {
    family.archivedAt.None? && MatchesFilters(Filters(Some(STUCK), None), family)
  }

  /** What `mark_failed` does: it may raise before its write or after it. */
  datatype Mark = Marks | RaisesBefore | RaisesAfter

  /** A stuck version whose failure gets written. */
  predicate Fails(v: Version, marks: int -> Mark) {
    v.status in STUCK && marks(v.id) != RaisesBefore
  }

  function Marked(v: Version, marks: int -> Mark): Version {
    if Fails(v, marks) then v.(status := Failed) else v
  }

  function MarkedUpTo(versions: seq<Version>, marks: int -> Mark, n: nat): (r: seq<Version>)
    ensures |r| == |versions|
    ensures forall j :: 0 <= j < |r| ==> r[j] == if j < n then Marked(versions[j], marks) else versions[j]
  {
    seq(|versions|, j requires 0 <= j < |versions| => if j < n then Marked(versions[j], marks) else versions[j])
  }

  /** A family after a scan. */
  function Scanned(family: Family, marks: int -> Mark): Family {
    if Listed(family) then family.(versions := MarkedUpTo(family.versions, marks, |family.versions|)) else family
  }

  // ----- One family: scans and uploads -----

  /** An upload joins the family as its latest version; an archived family takes none. */
  function Joined(family: Family, v: Version): Family {
    if family.archivedAt.Some? then family else family.(versions := family.versions + [v], latestVersionId := v.id)
  }

  datatype Event = Scan(marks: int -> Mark) | Upload(version: Version)

  function Happens(family: Family, e: Event): Family {
    match e
    case Scan(marks) => Scanned(family, marks)
    case Upload(v) => Joined(family, v)
  }

  function AfterAll(family: Family, events: seq<Event>): (r: Family)
    ensures |family.versions| <= |r.versions|
    decreases |events|
  {
    if events == [] then family else AfterAll(Happens(family, events[0]), events[1..])
  }

  /** An upload brings a version with a new id, stored or recognised as a duplicate. */
  predicate Fresh(family: Family, v: Version) {
    v.status in {Stored, DuplicateDetected} && forall j :: 0 <= j < |family.versions| ==> family.versions[j].id != v.id
  }

  predicate FreshUploads(family: Family, events: seq<Event>)
    decreases |events|
  {
    || events == []
    || ((events[0].Upload? ==> Fresh(family, events[0].version)) && FreshUploads(Happens(family, events[0]), events[1..]))
  }

  /** The version whose status decides whether the family is listed. */
  function Latest(family: Family): Version
    requires family.versions != []
  {
    VersionOr(family.versions, family.latestVersionId, family.versions[|family.versions| - 1])
  }

  lemma {:induction false} VersionOrMarked(versions: seq<Version>, marks: int -> Mark, id: int, default: Version)
    ensures VersionOr(MarkedUpTo(versions, marks, |versions|), id, Marked(default, marks)) == Marked(VersionOr(versions, id, default), marks)
  {
    if versions != [] {
      var rest := versions[1..];
      assert MarkedUpTo(versions, marks, |versions|)[1..] == MarkedUpTo(rest, marks, |rest|);
      VersionOrMarked(rest, marks, id, default);
    }
  }

  lemma {:induction false} VersionOrAppended(versions: seq<Version>, v: Version, default: Version)
    requires forall j :: 0 <= j < |versions| ==> versions[j].id != v.id
    ensures VersionOr(versions + [v], v.id, default) == v
  {
    if versions != [] {
      assert (versions + [v])[1..] == versions[1..] + [v];
      VersionOrAppended(versions[1..], v, default);
    }
  }

  /** A scan takes the family off the list exactly when it writes the latest version's failure. */
  lemma ScanLatest(family: Family, marks: int -> Mark)
    requires Listed(family)
    ensures Scanned(family, marks).versions != [] && Latest(Scanned(family, marks)) == Marked(Latest(family), marks)
    ensures Listed(Scanned(family, marks)) <==> marks(Latest(family).id) == RaisesBefore
  {
    hide Contains;
    VersionOrMarked(family.versions, marks, family.latestVersionId, family.versions[|family.versions| - 1]);
  }

  lemma UploadUnlists(family: Family, v: Version)
    requires Fresh(family, v)
    ensures !Listed(Joined(family, v))
  {
    hide Contains;
    VersionOrAppended(family.versions, v, v);
  }

  /** However many scans run and uploads arrive, a family that is not listed stays unlisted and keeps its versions. */
  lemma {:induction false} UnlistedIsNeverFound(family: Family, events: seq<Event>)
    requires !Listed(family) && FreshUploads(family, events)
    ensures !Listed(AfterAll(family, events)) && family.versions <= AfterAll(family, events).versions
    decreases |events|
  {
    hide Listed, Fresh;
    if events != [] {
      if events[0].Upload? {
        UploadUnlists(family, events[0].version);
      }
      UnlistedIsNeverFound(Happens(family, events[0]), events[1..]);
    }
  }

  /** The event leaves a family listed whose latest version has this id. */
  predicate Keeps(e: Event, latestId: int) {
    e.Scan? && e.marks(latestId) == RaisesBefore
  }

  predicate FoundAt(events: seq<Event>, latestId: int, id: int, k: nat) {
    && k < |events| && events[k].Scan? && events[k].marks(id) != RaisesBefore
    && forall m :: 0 <= m < k ==> Keeps(events[m], latestId)
  }

  /** Some scan writes the failure of version `id`, no upload came before it, and no scan before it got the latest version failed. */
  predicate Found(events: seq<Event>, latestId: int, id: int) {
    exists k :: 0 <= k < |events| && FoundAt(events, latestId, id, k)
  }

  lemma FoundFirst(events: seq<Event>, latestId: int, id: int)
    ensures Found(events, latestId, id) <==>
              && events != []
              && (|| (events[0].Scan? && events[0].marks(id) != RaisesBefore)
                  || (Keeps(events[0], latestId) && Found(events[1..], latestId, id)))
  {
    hide FoundAt, Keeps;
    if Found(events, latestId, id) {
      var k :| 0 <= k < |events| && FoundAt(events, latestId, id, k);
      FoundStep(events, latestId, id, k);
    }
    if events != [] {
      FoundStep(events, latestId, id, 0);
      if Keeps(events[0], latestId) && Found(events[1..], latestId, id) {
        var k :| 0 <= k < |events[1..]| && FoundAt(events[1..], latestId, id, k);
        FoundStep(events, latestId, id, k + 1);
      }
    }
  }

  lemma FoundStep(events: seq<Event>, latestId: int, id: int, k: nat)
    requires k < |events|
    ensures FoundAt(events, latestId, id, k) <==>
              if k == 0 then events[0].Scan? && events[0].marks(id) != RaisesBefore
              else Keeps(events[0], latestId) && FoundAt(events[1..], latestId, id, k - 1)
  {
    hide Keeps;
    assert forall m :: 0 <= m < |events[1..]| ==> events[1..][m] == events[m + 1];
    assert forall m :: 0 < m < k ==> events[m] == events[1..][m - 1];
  }

  /** What has been failed is not stuck any more, so later scans and uploads leave it. */
  lemma {:induction false} SettledStays(family: Family, events: seq<Event>, j: nat)
    requires j < |family.versions| && family.versions[j].status !in STUCK
    ensures AfterAll(family, events).versions[j] == family.versions[j]
    decreases |events|
  {
    hide Listed;
    if events != [] {
      SettledStays(Happens(family, events[0]), events[1..], j);
    }
  }

  /**
    Over any run of scans and uploads: a stuck version is failed if and only if its family was listed and some scan wrote its
    failure before an upload arrived and before the family's latest version had been failed. Otherwise it stays as it is.
   */
  lemma {:induction false} FailedIffFound(family: Family, events: seq<Event>, j: nat)
    requires j < |family.versions| && family.versions[j].status in STUCK && FreshUploads(family, events)
    ensures AfterAll(family, events).versions[j]
         == if Listed(family) && Found(events, Latest(family).id, family.versions[j].id)
            then family.versions[j].(status := Failed) else family.versions[j]
    decreases |events|
  {
    hide Listed, Latest, Found, Fresh;
    if events != [] {
      var next := Happens(family, events[0]);
      if !Listed(family) {
        UnlistedIsNeverFound(family, events);
      } else if events[0].Upload? {
        FoundFirst(events, Latest(family).id, family.versions[j].id);
        UploadUnlists(family, events[0].version);
        UnlistedIsNeverFound(next, events[1..]);
      } else {
        FoundFirst(events, Latest(family).id, family.versions[j].id);
        ScanLatest(family, events[0].marks);
        if Fails(family.versions[j], events[0].marks) {
          SettledStays(next, events[1..], j);
        } else {
          FailedIffFound(next, events[1..], j);
        }
      }
    } else {
      FoundFirst(events, Latest(family).id, family.versions[j].id);
    }
  }

  /** One scan without faults: it fails the stuck versions of listed families and nothing else. */
  lemma ScanFailsListed(family: Family, marks: int -> Mark, j: nat)
    requires j < |family.versions| && forall id :: marks(id) == Marks
    ensures Scanned(family, marks).versions[j]
         == if Listed(family) && family.versions[j].status in STUCK
            then family.versions[j].(status := Failed) else family.versions[j]
    ensures !Listed(Scanned(family, marks))
  {
    hide MatchesFilters;
    if Listed(family) {
      ScanLatest(family, marks);
    }
  }

  /**
    A submission met a full queue and left version 1 QUEUED_FOR_EXTRACTION without a job; then the same bytes are uploaded
    again. The duplicate is now the latest version, and no scan ever finds version 1.
   */
  lemma DuplicateHidesStranded(scans: seq<Event>) returns (family: Family, upload: Event)
    requires forall k :: 0 <= k < |scans| ==> scans[k].Scan?
    ensures Listed(family) && |family.versions| == 1 && family.versions[0].status == QueuedForExtraction
    ensures upload.Upload? && upload.version.status == DuplicateDetected && Fresh(family, upload.version)
    ensures AfterAll(family, [upload] + scans).versions == family.versions + [upload.version]
  {
    var first := Version(1, 1, "a.pdf", Object(1), QueuedForExtraction);
    family := Family("a.pdf", 1, None, [first], {});
    upload := Upload(Version(2, 2, "a.pdf", Object(2), DuplicateDetected));
    var joined := Joined(family, upload.version);
    UploadUnlists(family, upload.version);
    ScansOnly(joined, scans);
    UnlistedIsNeverFound(joined, scans);
    assert ([upload] + scans)[1..] == scans;
  }

  /**
    Both versions of a family are stuck. A scan fails the latest one but raises on the older one and goes on, as it should;
    no later scan tries the older one again.
   */
  lemma FaultHidesOlder(scans: seq<Event>) returns (family: Family, marks: int -> Mark)
    requires forall k :: 0 <= k < |scans| ==> scans[k].Scan?
    ensures Listed(family) && |family.versions| == 2 && forall v :: v in family.versions ==> v.status == QueuedForExtraction
    ensures AfterAll(family, [Scan(marks)] + scans).versions == [family.versions[0], family.versions[1].(status := Failed)]
  {
    var older := Version(1, 1, "a.pdf", Object(1), QueuedForExtraction);
    var latest := Version(2, 2, "a.pdf", Object(2), QueuedForExtraction);
    family := Family("a.pdf", 2, None, [older, latest], {});
    marks := id => if id == 1 then RaisesBefore else Marks;
    var next := Scanned(family, marks);
    assert VersionOr([older, latest][1..], 2, latest) == latest;
    ScanLatest(family, marks);
    ScansOnly(next, scans);
    UnlistedIsNeverFound(next, scans);
    assert ([Scan(marks)] + scans)[1..] == scans;
  }

  lemma {:induction false} ScansOnly(family: Family, scans: seq<Event>)
    requires forall k :: 0 <= k < |scans| ==> scans[k].Scan?
    ensures FreshUploads(family, scans) && |AfterAll(family, scans).versions| == |family.versions|
    decreases |scans|
  {
    hide Listed, Fresh;
    if scans != [] {
      ScansOnly(Happens(family, scans[0]), scans[1..]);
    }
  }

  // ----- The whole table -----

  function Scans(marks: int -> Mark): Document -> Document {
    (row: Document) => row.(item := Scanned(row.item, marks))
  }

  function ScannedAll(rows: seq<Document>, marks: int -> Mark): (r: seq<Document>)
    ensures |r| == |rows|
    ensures forall i :: 0 <= i < |r| ==> r[i] == rows[i].(item := Scanned(rows[i].item, marks))
  {
    seq(|rows|, i requires 0 <= i < |rows| => rows[i].(item := Scanned(rows[i].item, marks)))
  }

  predicate IsStuck(s: Status) {
    s == QueuedForExtraction || s == Extracting
  }

  ghost predicate FoundByScan(family: Family) {
    family.archivedAt == None && exists l: nat :: IsLatestOf(family, l) && IsStuck(family.versions[l].status)
  }

  lemma ListedMeans(family: Family)
    ensures Listed(family) <==> FoundByScan(family)
  {
    hide IsLatestOf;
    if family.versions != [] {
      var l := LatestIs(family);
    }
    FiltersMean(Filters(Some(STUCK), None), family);
  }

  /** The scan in terms of the table: which version is failed depends on its status, its family's latest version and the archive flag. */
  lemma ScanMeans(rows: seq<Document>, marks: int -> Mark, i: nat)
    requires i < |rows|
    ensures var before, after := rows[i], ScannedAll(rows, marks)[i];
            && after == before.(item := before.item.(versions := after.item.versions))
            && |after.item.versions| == |before.item.versions|
            && forall j :: 0 <= j < |after.item.versions| ==>
                 var v := before.item.versions[j];
                 after.item.versions[j] == if FoundByScan(before.item) && IsStuck(v.status) && marks(v.id) != RaisesBefore
                                           then v.(status := Failed) else v
  {
    hide Listed, FoundByScan;
    ListedMeans(rows[i].item);
  }

  lemma RecoveredMeans(rows: seq<Document>, marks: int -> Mark)
    ensures forall i: nat, j: nat :: (i, j) in Recovered(rows, marks) <==>
              && i < |rows| && j < |rows[i].item.versions| && FoundByScan(rows[i].item)
              && IsStuck(rows[i].item.versions[j].status) && marks(rows[i].item.versions[j].id) == Marks
  {
    hide Listed, FoundByScan;
    forall i | 0 <= i < |rows| {
      ListedMeans(rows[i].item);
    }
  }

  function ListedDocuments(rows: seq<Document>): seq<Document> {
    Keep(Listing(rows, {Everything}), (d: Document) => Listed(d.item))
  }

  /** A version the scan reports as recovered. */
  predicate Recovers(v: Version, marks: int -> Mark) {
    v.status in STUCK && marks(v.id) == Marks
  }

  /** Positions (row, version) of the table: those a scan recovers, among the documents of the first n listed ids. */
  function RecoveredUpTo(rows: seq<Document>, ids: seq<int>, marks: int -> Mark, n: nat): set<(nat, nat)> {
    set i: nat, j: nat | i < |rows| && j < |rows[i].item.versions| && FirstIndex(ids, rows[i].key.id) < n
                         && Recovers(rows[i].item.versions[j], marks) :: (i, j)
  }

  function RecoveredOf(i: nat, versions: seq<Version>, marks: int -> Mark, n: nat): set<(nat, nat)>
    requires n <= |versions|
  {
    set j: nat | j < n && Recovers(versions[j], marks) :: (i, j)
  }

  /** All of them: the stuck versions of listed families for which nothing raises. */
  function Recovered(rows: seq<Document>, marks: int -> Mark): set<(nat, nat)> {
    set i: nat, j: nat | i < |rows| && j < |rows[i].item.versions| && Listed(rows[i].item)
                         && Recovers(rows[i].item.versions[j], marks) :: (i, j)
  }

  lemma ListedEnumerate(rows: seq<Document>)
    requires WellFormed(rows)
    ensures Enumerates(Ids(ListedDocuments(rows)), rows)
    ensures forall k :: 0 <= k < |ListedDocuments(rows)| ==> RowOf(rows, Ids(ListedDocuments(rows)), k) == ListedDocuments(rows)[k]
    ensures forall i :: 0 <= i < |rows| ==> (rows[i].key.id in Ids(ListedDocuments(rows)) <==> Listed(rows[i].item))
  {
    hide WellFormed, Find, Listing, MatchesFilters;
    var listed := (d: Document) => Listed(d.item);
    WellFormedDistinct(rows);
    ListingAscends(rows, {Everything});
    KeepAscending(Listing(rows, {Everything}), listed);
    forall d: Document
      ensures d in ListedDocuments(rows) <==> d in rows && Listed(d.item)
    {
      InListing(rows, {Everything}, d);
      assert Reaches(Everything, d.item) <==> d.item.archivedAt.None?;
    }
    ListingEnumerates(rows, ListedDocuments(rows));
  }

  /** Where the loop over the listed documents ends, every family has been scanned. */
  lemma AllScanned(rows: seq<Document>, marks: int -> Mark)
    requires WellFormed(rows)
    ensures var ids := Ids(ListedDocuments(rows));
            && Rewritten(rows, ids, Scans(marks), |ids|) == ScannedAll(rows, marks)
            && RecoveredUpTo(rows, ids, marks, |ids|) == Recovered(rows, marks)
  {
    hide WellFormed, Enumerates, ListedDocuments, Listed, Recovers;
    ListedEnumerate(rows);
    var ids := Ids(ListedDocuments(rows));
    forall i | 0 <= i < |rows|
      ensures FirstIndex(ids, rows[i].key.id) < |ids| <==> Listed(rows[i].item)
    {
      assert rows[i].key.id in ids <==> FirstIndex(ids, rows[i].key.id) < |ids|;
    }
  }

  lemma RecoverNext(rows: seq<Document>, ids: seq<int>, marks: int -> Mark, n: nat, i: nat)
    requires WellFormed(rows) && Enumerates(ids, rows) && n < |ids| && Find(rows, ids[n]) == Some(i)
    ensures var versions := rows[i].item.versions;
            |RecoveredUpTo(rows, ids, marks, n + 1)|
            == |RecoveredUpTo(rows, ids, marks, n)| + |RecoveredOf(i, versions, marks, |versions|)|
  {
    hide WellFormed, Enumerates, Recovers, Find;
    ListedAt(rows, ids, n);
    var before, more := RecoveredUpTo(rows, ids, marks, n), RecoveredOf(i, rows[i].item.versions, marks, |rows[i].item.versions|);
    assert RecoveredUpTo(rows, ids, marks, n + 1) == before + more;
    assert before !! more;
  }

  lemma NothingScanned(rows: seq<Document>, ids: seq<int>, marks: int -> Mark)
    ensures Rewritten(rows, ids, Scans(marks), 0) == rows && RecoveredUpTo(rows, ids, marks, 0) == {}
  {
  }

  lemma ScanNext(rows: seq<Document>, ids: seq<int>, marks: int -> Mark, n: nat) returns (i: nat)
    requires WellFormed(rows) && ids == Ids(ListedDocuments(rows)) && n < |ids|
    ensures i < |rows|
    ensures var before, row := Rewritten(rows, ids, Scans(marks), n), ListedDocuments(rows)[n];
            && Find(before, row.key.id) == Some(i) && before[i] == row
            && Rewritten(rows, ids, Scans(marks), n + 1)
               == before[i := WithVersions(row, MarkedUpTo(row.item.versions, marks, |row.item.versions|))]
            && |RecoveredUpTo(rows, ids, marks, n + 1)|
               == |RecoveredUpTo(rows, ids, marks, n)| + |RecoveredOf(i, row.item.versions, marks, |row.item.versions|)|
  {
    hide WellFormed, Enumerates, Find, Rewritten, RecoveredUpTo, Listing, MatchesFilters;
    ListedEnumerate(rows);
    forall row: Document
      ensures Scans(marks)(row).key == row.key
    {
      assert Scans(marks)(row) == row.(item := Scanned(row.item, marks));
    }
    RewriteNext(rows, ids, Scans(marks), n);
    i := Find(rows, ids[n]).value;
    RecoverNext(rows, ids, marks, n, i);
    assert ListedDocuments(rows)[n] in ListedDocuments(rows);
  }


  function MarkedRow(rows: seq<Document>, i: nat, marks: int -> Mark, n: nat): seq<Document>
    requires i < |rows|
  {
    rows[i := WithVersions(rows[i], MarkedUpTo(rows[i].item.versions, marks, n))]
  }

  lemma NothingMarked(rows: seq<Document>, i: nat, marks: int -> Mark)
    requires i < |rows|
    ensures MarkedRow(rows, i, marks, 0) == rows && RecoveredOf(i, rows[i].item.versions, marks, 0) == {}
  {
    assert MarkedUpTo(rows[i].item.versions, marks, 0) == rows[i].item.versions;
    assert WithVersions(rows[i], rows[i].item.versions) == rows[i];
  }

  lemma StillWellFormed(rows: seq<Document>, i: nat, marks: int -> Mark, n: nat)
    requires WellFormed(rows) && i < |rows|
    ensures WellFormed(MarkedRow(rows, i, marks, n)) && Find(MarkedRow(rows, i, marks, n), rows[i].key.id) == Some(i)
  {
    DistinctById(MarkedUpTo(rows[i].item.versions, marks, n), rows[i].item.versions);
    WellFormedById(MarkedRow(rows, i, marks, n), rows);
  }

  /** The next version of the row is found under its id as it was; marking it continues the loop's state. */
  lemma MarkNext(rows: seq<Document>, i: nat, marks: int -> Mark, n: nat)
    requires WellFormed(rows) && i < |rows| && n < |rows[i].item.versions|
    ensures var before, v := MarkedRow(rows, i, marks, n), rows[i].item.versions[n];
            && Find(before, rows[i].key.id) == Some(i) && VersionIndex(before[i].item.versions, v.id) == Some(n)
            && |RecoveredOf(i, rows[i].item.versions, marks, n + 1)|
               == |RecoveredOf(i, rows[i].item.versions, marks, n)| + (if Recovers(v, marks) then 1 else 0)
            && MarkedRow(rows, i, marks, n + 1)
               == if Fails(v, marks)
                  then before[i := WithVersions(before[i], before[i].item.versions[n := before[i].item.versions[n].(status := Failed)])]
                  else before
  {
    StillWellFormed(rows, i, marks, n);
    MarkOne(rows[i].item.versions, marks, n);
    CountOne(i, rows[i].item.versions, marks, n);
    assert DistinctVersions(MarkedRow(rows, i, marks, n)[i].item.versions);
  }

  lemma MarkOne(versions: seq<Version>, marks: int -> Mark, n: nat)
    requires n < |versions|
    ensures var partly := MarkedUpTo(versions, marks, n);
            && partly[n] == versions[n]
            && MarkedUpTo(versions, marks, n + 1)
               == if Fails(versions[n], marks) then partly[n := partly[n].(status := Failed)] else partly
  {
  }

  lemma CountOne(i: nat, versions: seq<Version>, marks: int -> Mark, n: nat)
    requires n < |versions|
    ensures |RecoveredOf(i, versions, marks, n + 1)| == |RecoveredOf(i, versions, marks, n)| + if Recovers(versions[n], marks) then 1 else 0
  {
    var before := RecoveredOf(i, versions, marks, n);
    assert (i, n) !in before;
    assert RecoveredOf(i, versions, marks, n + 1) == if Recovers(versions[n], marks) then before + {(i, n)} else before;
  }

  class Recovery {
    var rows: seq<Document>

    predicate Valid()
      reads this
    {
      WellFormed(rows)
    }

    /** `DocumentService.mark_failed`: finds the version and writes FAILED, whatever its status. */
    method MarkFailed(documentId: int, versionId: int, mark: Mark) returns (ok: bool)
      modifies this
      ensures match Find(old(rows), documentId)
              case None => !ok && rows == old(rows)
              case Some(i) =>
                var versions := old(rows)[i].item.versions;
                match VersionIndex(versions, versionId)
                case None => !ok && rows == old(rows)
                case Some(j) =>
                  && ok == mark.Marks?
                  && rows == if mark.RaisesBefore? then old(rows)
                             else old(rows)[i := WithVersions(old(rows)[i], versions[j := versions[j].(status := Failed)])]
    {
      var document := Find(rows, documentId);
      if document.None? {
        return false;
      }
      var i := document.value;
      var version := VersionIndex(rows[i].item.versions, versionId);
      if version.None? || mark.RaisesBefore? {
        return false;
      }
      var j := version.value;
      rows := rows[i := WithVersions(rows[i], rows[i].item.versions[j := rows[i].item.versions[j].(status := Failed)])];
      return mark.Marks?;
    }

    /** The loop over the versions of one listed document. */
    method MarkVersions(document: Document, marks: int -> Mark, ghost i: nat) returns (recovered: nat)
      requires Valid() && Find(rows, document.key.id) == Some(i) && rows[i] == document
      modifies this
      ensures Valid() && rows == old(rows)[i := WithVersions(document, MarkedUpTo(document.item.versions, marks, |document.item.versions|))]
      ensures recovered == |RecoveredOf(i, document.item.versions, marks, |document.item.versions|)|
    {
      hide WellFormed, Find, MarkedUpTo, RecoveredOf, DistinctVersions;
      ghost var start := rows;
      var versions := document.item.versions;
      var n := 0;
      recovered := 0;
      NothingMarked(start, i, marks);
      while n < |versions|
        invariant n <= |versions| && rows == MarkedRow(start, i, marks, n)
        invariant recovered == |RecoveredOf(i, versions, marks, n)|
      {
        MarkNext(start, i, marks, n);
        if versions[n].status in STUCK {
          var ok := MarkFailed(document.key.id, versions[n].id, marks(versions[n].id));
          if ok {
            recovered := recovered + 1;
          }
        }
        n := n + 1;
      }
      StillWellFormed(start, i, marks, n);
    }

    /**
      `recover_stuck_extractions`. `marks` tells for each version whether `mark_failed` raises; a version for which it does
      is skipped. A listing that raises ends the scan. The number returned counts the versions recovered.
     */
    method RecoverStuckExtractions(inline: bool, listingRaises: bool, marks: int -> Mark) returns (recovered: nat)
      requires Valid()
      modifies this
      ensures Valid()
      ensures rows == if inline || listingRaises then old(rows) else ScannedAll(old(rows), marks)
      ensures recovered == if inline || listingRaises then 0 else |Recovered(old(rows), marks)|
    {
      hide WellFormed, Enumerates, Find, Rewritten, RecoveredUpTo, Recovered, RowOf, ListedDocuments;
      if inline {
        return 0;
      }
      if listingRaises {
        return 0;
      }
      ghost var start := rows;
      var documents := ListedDocuments(rows);
      ghost var ids := Ids(documents);
      var n := 0;
      recovered := 0;
      ListedEnumerate(start);
      NothingScanned(start, ids, marks);
      while n < |documents|
        invariant n <= |documents| && Valid()
        invariant rows == Rewritten(start, ids, Scans(marks), n)
        invariant recovered == |RecoveredUpTo(start, ids, marks, n)|
      {
        ghost var i := ScanNext(start, ids, marks, n);
        var more := MarkVersions(documents[n], marks, i);
        recovered := recovered + more;
        n := n + 1;
      }
      AllScanned(start, marks);
    }
  }
}
