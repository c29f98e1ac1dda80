/**
  The purge cascade: one document's versions turned into tombstones one by one, the batch over listed
  documents, and Orbital's purge of every active document. A purge attempt may stop anywhere.
 */
module Purge {
  import opened Wrappers
  import opened Keyset
  import opened Lifecycle
  import opened Catalog

  const BATCH_MAX: nat := 100

  datatype VersionResult = VersionResult(versionId: int, statusBefore: Status, uriBefore: Uri, tombstone: Uri, purgedAt: Option<int>)

  /** How `_purge_one_document` ends: 404, 409, an unexpected store error, or its report. */
  datatype Outcome = NotFound | NotArchived | Crashed | Purged200(versions: seq<VersionResult>)

  /** What an attempt makes of one version: a tombstone, unless it is one already. */
  function Entombed(documentId: int, v: Version, at: int): Version {
    if v.status == Purged then v else v.(uri := Tombstone(documentId, v.id, at), status := Purged)
  }

  /** The versions once an attempt at time `at` has got through the first n of them. */
  function EntombedUpTo(documentId: int, versions: seq<Version>, at: int, n: nat): (r: seq<Version>)
    ensures |r| == |versions|
    ensures forall i :: 0 <= i < |r| ==> r[i] == if i < n then Entombed(documentId, versions[i], at) else versions[i]
  {
    seq(|versions|, i requires 0 <= i < |versions| => if i < n then Entombed(documentId, versions[i], at) else versions[i])
  }

  /** The storage deletes attempted for the first n versions. */
  function DeletesUpTo(versions: seq<Version>, n: nat): seq<Uri>
    requires n <= |versions|
  {
    if n == 0 then []
    else DeletesUpTo(versions, n - 1) + (if versions[n - 1].status == Purged then [] else [versions[n - 1].uri])
  }

  /** An attempt is cut off before it is done with one of the versions, its storage delete attempted by then or not. */
  datatype Cut = Cut(version: nat, deleted: bool)

  /** How many versions an attempt gets past. */
  function PassedBy(versions: seq<Version>, cut: Option<Cut>): (n: nat)
    ensures n <= |versions|
  {
    if cut.Some? && cut.value.version < |versions| then cut.value.version else |versions|
  }

  function Deletes(versions: seq<Version>, cut: Option<Cut>): seq<Uri> {
    var n := PassedBy(versions, cut);
    DeletesUpTo(versions, if n < |versions| && cut.value.deleted then n + 1 else n)
  }

  /** What the report says about one version, as it was found. */
  function Line(documentId: int, v: Version, at: int, dryRun: bool): VersionResult {
    VersionResult(v.id, v.status, v.uri, Entombed(documentId, v, at).uri, if v.status == Purged || dryRun then None else Some(at))
  }

  /** A report's line about one version: as it was found, and the tombstone it has or would get. */
  predicate Reports(line: VersionResult, documentId: int, v: Version, at: int, dryRun: bool) {
    && line.versionId == v.id && line.statusBefore == v.status && line.uriBefore == v.uri
    && line.tombstone == (if v.status == Status.Purged then v.uri else Tombstone(documentId, v.id, at))
    && line.purgedAt == (if v.status == Status.Purged || dryRun then None else Some(at))
  }

  function Report(documentId: int, versions: seq<Version>, at: int, dryRun: bool, n: nat): (r: seq<VersionResult>)
    requires n <= |versions|
    ensures |r| == n
    ensures forall i :: 0 <= i < n ==> r[i] == Line(documentId, versions[i], at, dryRun)
  {
    if n == 0 then [] else Report(documentId, versions, at, dryRun, n - 1) + [Line(documentId, versions[n - 1], at, dryRun)]
  }

  function Unpurged(): Version -> bool {
    (v: Version) => v.status != Status.Purged
  }

  /** The deletes are those of the versions not yet purged, in order. */
  lemma {:induction false} DeletesAreOfUnpurged(versions: seq<Version>, n: nat)
    requires n <= |versions|
    ensures DeletesUpTo(versions, n) == Uris(Keep(versions[..n], Unpurged()))
  {
    hide Keep, Uris;
    if n > 0 {
      DeletesAreOfUnpurged(versions, n - 1);
      assert versions[..n] == versions[..n - 1] + [versions[n - 1]];
      KeepLast(versions[..n - 1], versions[n - 1]);
      UrisThen(Keep(versions[..n - 1], Unpurged()), versions[n - 1]);
    } else {
      NoUris();
    }
  }

  lemma KeepLast(front: seq<Version>, last: Version)
    ensures Keep(front + [last], Unpurged()) == if last.status == Status.Purged then Keep(front, Unpurged()) else Keep(front, Unpurged()) + [last]
  {
    assert [last][1..] == [];
    KeepConcat(front, [last], Unpurged());
  }

  lemma UrisThen(front: seq<Version>, last: Version)
    ensures Uris(front + [last]) == Uris(front) + [last.uri]
  {
  }

  lemma NoUris()
    ensures Uris(Keep([], Unpurged())) == []
  {
  }

  function Uris(versions: seq<Version>): seq<Uri> {
    seq(|versions|, i requires 0 <= i < |versions| => versions[i].uri)
  }

  // ----- Any sequence of attempts on one document -----

  datatype Attempt = Attempt(at: int, cut: Option<Cut>)

  function After(documentId: int, versions: seq<Version>, a: Attempt): seq<Version> {
    EntombedUpTo(documentId, versions, a.at, PassedBy(versions, a.cut))
  }

  function AfterAll(documentId: int, versions: seq<Version>, attempts: seq<Attempt>): (r: seq<Version>)
    ensures |r| == |versions|
    decreases |attempts|
  {
    if attempts == [] then versions
    else AfterAll(documentId, After(documentId, versions, attempts[0]), attempts[1..])
  }

  function DeletesOfAll(documentId: int, versions: seq<Version>, attempts: seq<Attempt>): seq<Uri>
    decreases |attempts|
  {
    if attempts == [] then []
    else Deletes(versions, attempts[0].cut) + DeletesOfAll(documentId, After(documentId, versions, attempts[0]), attempts[1..])
  }

  predicate AllPurged(versions: seq<Version>) {
    forall i :: 0 <= i < |versions| ==> versions[i].status == Purged
  }

  /** The first attempt that gets past version i, or how many attempts there are if none does. */
  function FirstPast(documentId: int, versions: seq<Version>, attempts: seq<Attempt>, i: nat): (k: nat)
    ensures k <= |attempts|
    decreases |attempts|
  {
    if attempts == [] || i < PassedBy(versions, attempts[0].cut) then 0
    else 1 + FirstPast(documentId, After(documentId, versions, attempts[0]), attempts[1..], i)
  }

  /**
    Over any sequence of attempts, each possibly cut off anywhere, a version gets its tombstone from the
    first attempt that gets past it, and no later attempt overwrites it.
   */
  lemma {:induction false} TombstoneIsWrittenOnce(documentId: int, versions: seq<Version>, attempts: seq<Attempt>, i: nat)
    requires i < |versions|
    ensures var k := FirstPast(documentId, versions, attempts, i);
            AfterAll(documentId, versions, attempts)[i]
            == if k < |attempts| then Entombed(documentId, versions[i], attempts[k].at) else versions[i]
    decreases |attempts|
  {
    if attempts != [] {
      var next := After(documentId, versions, attempts[0]);
      TombstoneIsWrittenOnce(documentId, next, attempts[1..], i);
      if i < PassedBy(versions, attempts[0].cut) {
        PurgedStays(documentId, next, attempts[1..], i);
      }
    }
  }

  lemma {:induction false} PurgedStays(documentId: int, versions: seq<Version>, attempts: seq<Attempt>, i: nat)
    requires i < |versions| && versions[i].status == Purged
    ensures AfterAll(documentId, versions, attempts)[i] == versions[i]
    decreases |attempts|
  {
    if attempts != [] {
      PurgedStays(documentId, After(documentId, versions, attempts[0]), attempts[1..], i);
    }
  }

  lemma {:induction false} DeletedUpTo(versions: seq<Version>, n: nat, i: nat)
    requires i < n <= |versions| && versions[i].status != Purged
    ensures versions[i].uri in DeletesUpTo(versions, n)
  {
    if i < n - 1 {
      DeletedUpTo(versions, n - 1, i);
    } else {
      assert DeletesUpTo(versions, n) == DeletesUpTo(versions, n - 1) + [versions[i].uri];
    }
  }

  /** A version is only ever marked PURGED after a delete of its original object was attempted. */
  lemma {:induction false} DeletedBeforePurged(documentId: int, versions: seq<Version>, attempts: seq<Attempt>, i: nat)
    requires i < |versions| && versions[i].status != Purged
    ensures AfterAll(documentId, versions, attempts)[i].status == Purged ==>
              versions[i].uri in DeletesOfAll(documentId, versions, attempts)
    decreases |attempts|
  {
    if attempts != [] {
      var n := PassedBy(versions, attempts[0].cut);
      var next := After(documentId, versions, attempts[0]);
      if i < n {
        DeletedUpTo(versions, if n < |versions| && attempts[0].cut.value.deleted then n + 1 else n, i);
        PurgedStays(documentId, next, attempts[1..], i);
      } else {
        DeletedBeforePurged(documentId, next, attempts[1..], i);
      }
    }
  }

  /** One attempt that nothing interrupts purges every version, whatever earlier attempts left behind. */
  lemma UninterruptedAttemptPurgesAll(documentId: int, versions: seq<Version>, a: Attempt)
    requires a.cut.None?
    ensures AllPurged(After(documentId, versions, a))
  {
  }

  /** Once all versions are purged, any further attempts change and delete nothing and echo the tombstones. */
  lemma FurtherAttemptsEcho(documentId: int, versions: seq<Version>, attempts: seq<Attempt>)
    requires AllPurged(versions)
    ensures AfterAll(documentId, versions, attempts) == versions
    ensures DeletesOfAll(documentId, versions, attempts) == []
    ensures forall at, dryRun, i :: 0 <= i < |versions| ==>
              var r := Report(documentId, versions, at, dryRun, |versions|)[i];
              r.tombstone == r.uriBefore == versions[i].uri && r.purgedAt == None
  {
    NothingHappens(documentId, versions, attempts);
    forall at, dryRun, i | 0 <= i < |versions|
      ensures var r := Report(documentId, versions, at, dryRun, |versions|)[i];
              r.tombstone == r.uriBefore == versions[i].uri && r.purgedAt == None
    {
    }
  }

  lemma {:induction false} NothingHappens(documentId: int, versions: seq<Version>, attempts: seq<Attempt>)
    requires AllPurged(versions)
    ensures AfterAll(documentId, versions, attempts) == versions && DeletesOfAll(documentId, versions, attempts) == []
    decreases |attempts|
  {
    if attempts != [] {
      var n := PassedBy(versions, attempts[0].cut);
      NoDeletes(versions, if n < |versions| && attempts[0].cut.value.deleted then n + 1 else n);
      assert After(documentId, versions, attempts[0]) == versions;
      NothingHappens(documentId, versions, attempts[1..]);
    }
  }

  lemma {:induction false} NoDeletes(versions: seq<Version>, n: nat)
    requires n <= |versions| && AllPurged(versions)
    ensures DeletesUpTo(versions, n) == []
  {
    if n > 0 {
      NoDeletes(versions, n - 1);
    }
  }

  // ----- The cascade and the state machine -----

  /** Each version was left alone or taken along an edge of the transition table. */
  predicate LegalRewrite(before: seq<Version>, after: seq<Version>) {
    && |before| == |after|
    && forall i :: 0 <= i < |before| ==> after[i] == before[i] || after[i].status in Transitions(before[i].status)
  }

  /**
    The cascade never asks the state machine. Whatever attempts were made and wherever they stopped, they kept to the
    table if and only if every version some attempt got past had been in a predecessor of PURGED.
   */
  lemma CascadeLegality(documentId: int, versions: seq<Version>, attempts: seq<Attempt>)
    ensures LegalRewrite(versions, AfterAll(documentId, versions, attempts)) <==>
              forall i :: 0 <= i < |versions| && FirstPast(documentId, versions, attempts, i) < |attempts| ==>
                versions[i].status in Predecessors(Purged)
  {
    hide AfterAll, FirstPast;
    var after := AfterAll(documentId, versions, attempts);
    if LegalRewrite(versions, after) {
      forall i | 0 <= i < |versions| && FirstPast(documentId, versions, attempts, i) < |attempts|
        ensures versions[i].status in Predecessors(Purged)
      {
        TombstoneIsWrittenOnce(documentId, versions, attempts, i);
        assert after[i] == versions[i] || after[i].status in Transitions(versions[i].status);
      }
    } else {
      var i :| 0 <= i < |versions| && after[i] != versions[i] && after[i].status !in Transitions(versions[i].status);
      TombstoneIsWrittenOnce(documentId, versions, attempts, i);
    }
  }

  /** The same for a single attempt, in terms of where it stops. */
  lemma AttemptLegality(documentId: int, versions: seq<Version>, a: Attempt)
    ensures LegalRewrite(versions, After(documentId, versions, a)) <==>
              forall i :: 0 <= i < PassedBy(versions, a.cut) ==> versions[i].status in Predecessors(Purged)
  {
    hide PassedBy;
    var after := After(documentId, versions, a);
    forall i | 0 <= i < |versions|
      ensures (after[i] == versions[i] || after[i].status in Transitions(versions[i].status)) <==>
                (i < PassedBy(versions, a.cut) ==> versions[i].status in Predecessors(Purged))
    {
    }
  }

  // ----- Other writers between the attempts -----

  /** What may happen to a family: a purge attempt, or another writer's unguarded status write (a parser that gives up). */
  datatype Happening = Purging(attempt: Attempt) | StatusWritten(index: nat, status: Status)

  function Happens(documentId: int, versions: seq<Version>, h: Happening): (r: seq<Version>)
    ensures |r| == |versions|
  {
    match h
    case Purging(a) => After(documentId, versions, a)
    case StatusWritten(i, status) => if i < |versions| then versions[i := versions[i].(status := status)] else versions
  }

  function HappenAll(documentId: int, versions: seq<Version>, hs: seq<Happening>): (r: seq<Version>)
    ensures |r| == |versions|
    decreases |hs|
  {
    if hs == [] then versions else HappenAll(documentId, Happens(documentId, versions, hs[0]), hs[1..])
  }

  predicate Writes(h: Happening, i: nat) {
    h.StatusWritten? && h.index == i
  }

  /** Other writers write any status but PURGED, and no attempt has the time of the tombstone `uri` of version `id`. */
  predicate Later(documentId: int, id: int, uri: Uri, h: Happening) {
    match h
    case Purging(a) => Tombstone(documentId, id, a.at) != uri
    case StatusWritten(_, status) => status != Purged
  }

  /** Version i is no longer PURGED with this tombstone. */
  predicate Lost(versions: seq<Version>, i: nat, uri: Uri)
    requires i < |versions|
  {
    versions[i].status != Purged || versions[i].uri != uri
  }

  lemma {:induction false} LostStaysLost(documentId: int, versions: seq<Version>, hs: seq<Happening>, i: nat, uri: Uri)
    requires i < |versions| && Lost(versions, i, uri)
    requires forall k :: 0 <= k < |hs| ==> Later(documentId, versions[i].id, uri, hs[k])
    ensures Lost(HappenAll(documentId, versions, hs), i, uri) && HappenAll(documentId, versions, hs)[i].id == versions[i].id
    decreases |hs|
  {
    if hs != [] {
      assert Later(documentId, versions[i].id, uri, hs[0]);
      assert forall k :: 0 <= k < |hs[1..]| ==> hs[1..][k] == hs[k + 1];
      LostStaysLost(documentId, Happens(documentId, versions, hs[0]), hs[1..], i, uri);
    }
  }

  lemma {:induction false} LostWhenWritten(documentId: int, versions: seq<Version>, hs: seq<Happening>, i: nat)
    requires i < |versions| && versions[i].status == Purged
    requires forall k :: 0 <= k < |hs| ==> Later(documentId, versions[i].id, versions[i].uri, hs[k])
    ensures var after := HappenAll(documentId, versions, hs);
            && after[i].id == versions[i].id
            && if exists k :: 0 <= k < |hs| && Writes(hs[k], i) then Lost(after, i, versions[i].uri) else after[i] == versions[i]
    decreases |hs|
  {
    if hs != [] {
      var rest, next := hs[1..], Happens(documentId, versions, hs[0]);
      assert forall k :: 0 <= k < |rest| ==> rest[k] == hs[k + 1];
      assert Later(documentId, versions[i].id, versions[i].uri, hs[0]);
      if Writes(hs[0], i) {
        LostStaysLost(documentId, next, rest, i, versions[i].uri);
      } else {
        LostWhenWritten(documentId, next, rest, i);
        assert forall k :: 0 < k < |hs| && Writes(hs[k], i) ==> Writes(rest[k - 1], i);
      }
    }
  }

  /**
    Through any sequence of attempts and of other writers' status writes, up to a last attempt that runs through, a
    stored tombstone survives if and only if no status write lands on its version. A parser that gives up after the purge
    makes the next attempt write a new one.
   */
  lemma TombstoneSurvivesUnlessWritten(documentId: int, versions: seq<Version>, hs: seq<Happening>, last: Attempt, i: nat)
    requires i < |versions| && versions[i].status == Purged && last.cut.None?
    requires forall k :: 0 <= k < |hs| ==> Later(documentId, versions[i].id, versions[i].uri, hs[k])
    requires Later(documentId, versions[i].id, versions[i].uri, Purging(last))
    ensures After(documentId, HappenAll(documentId, versions, hs), last)[i].uri == versions[i].uri <==>
              forall k :: 0 <= k < |hs| ==> !Writes(hs[k], i)
  {
    LostWhenWritten(documentId, versions, hs, i);
  }
}
