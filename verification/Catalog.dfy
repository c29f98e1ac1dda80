/**
  The document catalog as its readers see it: families of versions, the scope links that make a
  family visible, and a history of snapshots, one per store call, between which other users may
  change anything but the keys.
 */
module Catalog {
  import opened Wrappers
  import opened Keyset
  import opened Lifecycle

  /** A storage handle: an object's address, or the tombstone left by a purge. */
  datatype Uri = Object(address: int) | Tombstone(documentId: int, versionId: int, purgedAt: int)

  datatype Version = Version(id: int, number: int, filename: string, uri: Uri, status: Status)

  datatype Link = Link(kind: string, ref: string)

  datatype Family = Family(
    filename: string,
    latestVersionId: int,
    archivedAt: Option<int>,
    versions: seq<Version>,
    scopes: set<Link>)

  type Document = Row<Family>

  /** What a caller may see: every active document, or those linked to one scope. */
  datatype Reach = Everything | Scoped(link: Link)

  predicate Reaches(reach: Reach, family: Family) {
    family.archivedAt.None? && (reach.Everything? || reach.link in family.scopes)
  }

  predicate InReach(reaches: set<Reach>, family: Family) {
    exists reach :: reach in reaches && Reaches(reach, family)
  }

  /** The visible documents in (created_at, id) order. */
  function Listing(snapshot: seq<Document>, reaches: set<Reach>): seq<Document> {
    Keep(SortByKey(snapshot), (d: Document) => InReach(reaches, d.item))
  }

  predicate DistinctIds(snapshot: seq<Document>) {
    forall i, j :: 0 <= i < j < |snapshot| ==> snapshot[i].key.id != snapshot[j].key.id
  }

  /** The store call `list_documents_in_scope`. */
  function ListInScope(snapshot: seq<Document>, link: Link, cursor: Cursor, limit: nat): (seq<Document>, Cursor)
    requires limit > 0
  {
    Fetch(Listing(snapshot, {Scoped(link)}), cursor, limit)
  }

  // ----- Histories -----

  predicate IsHistory(snapshots: seq<seq<Document>>) {
    snapshots != [] && forall s :: 0 <= s < |snapshots| ==> DistinctIds(snapshots[s])
  }

  /** A document keeps its key for good. */
  ghost predicate KeysAreImmutable(h: seq<seq<Document>>) {
    forall s, t, a, b :: (0 <= s < |h| && 0 <= t < |h| && a in h[s] && b in h[t] && a.key.id == b.key.id) ==> a.key == b.key
  }

  type History = snapshots: seq<seq<Document>> | IsHistory(snapshots) witness [[]]

  /** What the store call number `t` reads. The last snapshot stays for good. */
  function At(h: History, t: nat): seq<Document> {
    if t < |h| then h[t] else h[|h| - 1]
  }

  /** How many snapshots are still to come: zero once nobody else changes anything. */
  function Changes(h: History, t: nat): nat {
    if t < |h| then |h| - 1 - t else 0
  }

  ghost predicate Fixed(h: History, start: nat) {
    forall t {:trigger At(h, t)} :: start <= t ==> At(h, t) == At(h, start)
  }

  lemma ListingAscends(snapshot: seq<Document>, reaches: set<Reach>)
    requires DistinctIds(snapshot)
    ensures Ascending(Listing(snapshot, reaches))
  {
    SortAscending(snapshot);
    KeepAscending(SortByKey(snapshot), (d: Document) => InReach(reaches, d.item));
  }

  lemma InListing(snapshot: seq<Document>, reaches: set<Reach>, d: Document)
    ensures d in Listing(snapshot, reaches) <==> d in snapshot && InReach(reaches, d.item)
  {
  }

  function Matching(p: Family -> bool): Document -> bool {
    (d: Document) => p(d.item)
  }

  // ----- What a reader who pages through a changing catalog is promised -----

  ghost predicate Present(rows: seq<Document>, p: Family -> bool, key: Key) {
    exists i :: 0 <= i < |rows| && rows[i].key == key && p(rows[i].item)
  }

  /** From call `start` to call `now`, the document was within one of the reaches and satisfied p. */
  ghost predicate Stays(h: History, reaches: set<Reach>, p: Family -> bool, start: nat, now: nat, key: Key) {
    exists reach :: reach in reaches && StaysIn(h, reach, p, start, now, key)
  }

  ghost predicate StaysIn(h: History, reach: Reach, p: Family -> bool, start: nat, now: nat, key: Key) {
    forall t :: start <= t < now ==> Present(Listing(At(h, t), {reach}), p, key)
  }

  ghost predicate Seen(h: History, reaches: set<Reach>, p: Family -> bool, start: nat, now: nat, d: Document) {
    p(d.item) && exists t :: start <= t < now && d in Listing(At(h, t), reaches)
  }

  /** A row a delivery may hold: between its cursors, and seen by one of its store calls. */
  ghost predicate Genuine(h: History, reaches: set<Reach>, p: Family -> bool, from: Cursor, next: Cursor,
                          start: nat, now: nat, d: Document) {
    After(from, d.key) && UpTo(next, d.key) && Seen(h, reaches, p, start, now, d)
  }

  ghost predicate Sound(h: History, reaches: set<Reach>, p: Family -> bool, from: Cursor, rows: seq<Document>,
                        next: Cursor, start: nat, now: nat) {
    forall i :: 0 <= i < |rows| ==> Genuine(h, reaches, p, from, next, start, now, rows[i])
  }

  /** A key a delivery must hold: between its cursors, and there all the time. */
  ghost predicate Owed(h: History, reaches: set<Reach>, p: Family -> bool, from: Cursor, next: Cursor,
                       start: nat, now: nat, key: Key) {
    After(from, key) && UpTo(next, key) && Stays(h, reaches, p, start, now, key)
  }

  ghost predicate Complete(h: History, reaches: set<Reach>, p: Family -> bool, from: Cursor, rows: seq<Document>,
                           next: Cursor, start: nat, now: nat) {
    forall key :: Owed(h, reaches, p, from, next, start, now, key) ==> HasKey(rows, key)
  }

  /**
    The rows between cursor `from` and cursor `next` (the end of the stream if none) as read by
    calls `start` to `now`: ascending, so none twice; each really seen; none that stayed left out.
   */
  ghost predicate Delivered(h: History, reaches: set<Reach>, p: Family -> bool, from: Cursor, rows: seq<Document>,
                            next: Cursor, start: nat, now: nat) {
    && start < now && (next.Some? ==> NotPast(from, next))
    && Ascending(rows)
    && Sound(h, reaches, p, from, rows, next, start, now)
    && Complete(h, reaches, p, from, rows, next, start, now)
  }

  lemma StaysShorter(h: History, reaches: set<Reach>, p: Family -> bool, start: nat, now: nat, s: nat, n: nat, key: Key)
    requires Stays(h, reaches, p, start, now, key) && start <= s && n <= now
    ensures Stays(h, reaches, p, s, n, key)
  {
    var reach :| reach in reaches && StaysIn(h, reach, p, start, now, key);
    assert StaysIn(h, reach, p, s, n, key);
  }

  lemma DeliveredWidens(h: History, reaches: set<Reach>, p: Family -> bool, from: Cursor, rows: seq<Document>,
                        next: Cursor, s: nat, n: nat, start: nat, now: nat)
    requires Delivered(h, reaches, p, from, rows, next, s, n) && start <= s && n <= now
    ensures Delivered(h, reaches, p, from, rows, next, start, now)
  {
    forall i | 0 <= i < |rows|
      ensures Genuine(h, reaches, p, from, next, start, now, rows[i])
    {
      assert Genuine(h, reaches, p, from, next, s, n, rows[i]);
    }
    forall key | Owed(h, reaches, p, from, next, start, now, key)
      ensures HasKey(rows, key)
    {
      StaysShorter(h, reaches, p, start, now, s, n, key);
      assert Owed(h, reaches, p, from, next, s, n, key);
    }
  }

  /** One store page, filtered, delivers the rows up to its last key. */
  lemma PageDelivers(h: History, reach: Reach, p: Family -> bool, from: Cursor, limit: nat, t: nat)
    requires limit > 0 && Fetch(Listing(At(h, t), {reach}), from, limit).0 != []
    ensures var page := Fetch(Listing(At(h, t), {reach}), from, limit).0;
            Delivered(h, {reach}, p, from, Keep(page, Matching(p)), Some(LastKey(page)), t, t + 1)
  {
    hide Sound, Complete, Listing, At, Genuine;
    var listing := Listing(At(h, t), {reach});
    var page := Fetch(listing, from, limit).0;
    ListingAtAscends(h, reach, t);
    FetchSplits(listing, from, limit);
    KeepAscending(page, Matching(p));
    PageIsSound(h, reach, p, from, limit, t);
    PageIsComplete(h, reach, p, from, limit, t);
  }

  lemma ListingAtAscends(h: History, reach: Reach, t: nat)
    ensures Ascending(Listing(At(h, t), {reach}))
  {
    ListingAscends(At(h, t), {reach});
  }

  lemma PageIsSound(h: History, reach: Reach, p: Family -> bool, from: Cursor, limit: nat, t: nat)
    requires limit > 0 && Fetch(Listing(At(h, t), {reach}), from, limit).0 != []
    ensures var page := Fetch(Listing(At(h, t), {reach}), from, limit).0;
            Sound(h, {reach}, p, from, Keep(page, Matching(p)), Some(LastKey(page)), t, t + 1)
  {
    hide Listing, At;
    var listing := Listing(At(h, t), {reach});
    var after := RowsAfter(listing, from);
    var page := Fetch(listing, from, limit).0;
    var rows := Keep(page, Matching(p));
    ListingAtAscends(h, reach, t);
    FetchSplits(listing, from, limit);
    forall i | 0 <= i < |rows|
      ensures Genuine(h, {reach}, p, from, Some(LastKey(page)), t, t + 1, rows[i])
    {
      assert rows[i] in rows && rows[i] in page;
      var j :| 0 <= j < |page| && page[j] == rows[i];
      assert after[j] == page[j] && page[j] in after && page[j] in listing;
      assert j == |page| - 1 || Before(page[j].key, page[|page| - 1].key);
    }
  }

  lemma PageIsComplete(h: History, reach: Reach, p: Family -> bool, from: Cursor, limit: nat, t: nat)
    requires limit > 0 && Fetch(Listing(At(h, t), {reach}), from, limit).0 != []
    ensures var page := Fetch(Listing(At(h, t), {reach}), from, limit).0;
            Complete(h, {reach}, p, from, Keep(page, Matching(p)), Some(LastKey(page)), t, t + 1)
  {
    hide Listing, At;
    var listing := Listing(At(h, t), {reach});
    var after := RowsAfter(listing, from);
    var page := Fetch(listing, from, limit).0;
    var next := Some(LastKey(page));
    ListingAtAscends(h, reach, t);
    FetchSplits(listing, from, limit);
    forall key | Owed(h, {reach}, p, from, next, t, t + 1, key)
      ensures HasKey(Keep(page, Matching(p)), key)
    {
      var d := PresentNow(h, reach, p, t, key);
      assert d in after && d !in after[|page|..] by {
        assert RowsAfter(listing, next) == after[|page|..];
      }
      assert after == page + after[|page|..];
      assert d in page && d in Keep(page, Matching(p));
    }
  }

  /** An unfull page delivers everything to the end of the stream. */
  lemma LastPageDelivers(h: History, reach: Reach, p: Family -> bool, from: Cursor, limit: nat, t: nat)
    requires limit > 0 && Fetch(Listing(At(h, t), {reach}), from, limit).1.None?
    ensures var page := Fetch(Listing(At(h, t), {reach}), from, limit).0;
            Delivered(h, {reach}, p, from, Keep(page, Matching(p)), None, t, t + 1)
  {
    var listing := Listing(At(h, t), {reach});
    var page := Fetch(listing, from, limit).0;
    var rows := Keep(page, Matching(p));
    ListingAscends(At(h, t), {reach});
    FetchSplits(listing, from, limit);
    KeepAscending(page, Matching(p));
    forall i | 0 <= i < |rows|
      ensures Genuine(h, {reach}, p, from, None, t, t + 1, rows[i])
    {
      assert rows[i] in rows && rows[i] in page && rows[i] in RowsAfter(listing, from);
    }
    forall key | Owed(h, {reach}, p, from, None, t, t + 1, key)
      ensures HasKey(rows, key)
    {
      var d := PresentNow(h, reach, p, t, key);
      assert d in page && d in rows;
    }
  }

  lemma PresentNow(h: History, reach: Reach, p: Family -> bool, t: nat, key: Key) returns (d: Document)
    requires Stays(h, {reach}, p, t, t + 1, key)
    ensures d in Listing(At(h, t), {reach}) && d.key == key && p(d.item)
  {
    assert StaysIn(h, reach, p, t, t + 1, key);
    var listing := Listing(At(h, t), {reach});
    assert Present(listing, p, key);
    var i :| 0 <= i < |listing| && listing[i].key == key && p(listing[i].item);
    d := listing[i];
  }

  lemma DeliveredThen(h: History, reaches: set<Reach>, p: Family -> bool, from: Cursor, a: seq<Document>, c: Key,
                      b: seq<Document>, next: Cursor, start: nat, middle: nat, now: nat)
    requires Delivered(h, reaches, p, from, a, Some(c), start, middle)
    requires Delivered(h, reaches, p, Some(c), b, next, middle, now)
    ensures Delivered(h, reaches, p, from, a + b, next, start, now)
  {
    ThenSound(h, reaches, p, from, a, c, b, next, start, middle, now);
    ThenComplete(h, reaches, p, from, a, c, b, next, start, middle, now);
    forall i, j | 0 <= i < |a| && 0 <= j < |b|
      ensures Before(a[i].key, b[j].key)
    {
      assert Genuine(h, reaches, p, from, Some(c), start, middle, a[i]);
      assert Genuine(h, reaches, p, Some(c), next, middle, now, b[j]);
    }
    AscendingThen(a, b);
  }

  lemma ThenSound(h: History, reaches: set<Reach>, p: Family -> bool, from: Cursor, a: seq<Document>, c: Key,
                  b: seq<Document>, next: Cursor, start: nat, middle: nat, now: nat)
    requires start < middle < now && NotPast(from, Some(c)) && (next.Some? ==> NotPast(Some(c), next))
    requires Sound(h, reaches, p, from, a, Some(c), start, middle)
    requires Sound(h, reaches, p, Some(c), b, next, middle, now)
    ensures Sound(h, reaches, p, from, a + b, next, start, now)
  {
    forall i | 0 <= i < |a + b|
      ensures Genuine(h, reaches, p, from, next, start, now, (a + b)[i])
    {
      if i < |a| {
        assert Genuine(h, reaches, p, from, Some(c), start, middle, a[i]);
      } else {
        assert Genuine(h, reaches, p, Some(c), next, middle, now, b[i - |a|]);
      }
    }
  }

  lemma ThenComplete(h: History, reaches: set<Reach>, p: Family -> bool, from: Cursor, a: seq<Document>, c: Key,
                     b: seq<Document>, next: Cursor, start: nat, middle: nat, now: nat)
    requires start < middle < now
    requires Complete(h, reaches, p, from, a, Some(c), start, middle)
    requires Complete(h, reaches, p, Some(c), b, next, middle, now)
    ensures Complete(h, reaches, p, from, a + b, next, start, now)
  {
    forall key | Owed(h, reaches, p, from, next, start, now, key)
      ensures HasKey(a + b, key)
    {
      if Before(c, key) {
        StaysShorter(h, reaches, p, start, now, middle, now, key);
        assert Owed(h, reaches, p, Some(c), next, middle, now, key);
        var i :| 0 <= i < |b| && b[i].key == key;
        assert (a + b)[|a| + i].key == key;
      } else {
        StaysShorter(h, reaches, p, start, now, start, middle, key);
        assert Owed(h, reaches, p, from, Some(c), start, middle, key);
        var i :| 0 <= i < |a| && a[i].key == key;
        assert (a + b)[i].key == key;
      }
    }
  }

  /** Cutting a delivery short moves its cursor back to the last row that is kept. */
  lemma DeliveredCut(h: History, reaches: set<Reach>, p: Family -> bool, from: Cursor, rows: seq<Document>,
                     next: Cursor, n: nat, start: nat, now: nat)
    requires Delivered(h, reaches, p, from, rows, next, start, now) && 0 < n <= |rows|
    ensures Delivered(h, reaches, p, from, rows[..n], Some(rows[n - 1].key), start, now)
  {
    hide Stays, Seen, IsHistory;
    var last := rows[n - 1].key;
    assert Genuine(h, reaches, p, from, next, start, now, rows[n - 1]);
    forall i | 0 <= i < n
      ensures Genuine(h, reaches, p, from, Some(last), start, now, rows[..n][i])
    {
      assert Genuine(h, reaches, p, from, next, start, now, rows[i]);
      assert i == n - 1 || Before(rows[i].key, last);
    }
    forall key | Owed(h, reaches, p, from, Some(last), start, now, key)
      ensures HasKey(rows[..n], key)
    {
      assert Owed(h, reaches, p, from, next, start, now, key);
      var i :| 0 <= i < |rows| && rows[i].key == key;
      assert i < n;
      assert rows[..n][i].key == key;
    }
  }

  /** How many rows lie after the cursor. */
  function RowsAhead(h: History, reaches: set<Reach>, cursor: Cursor, t: nat): nat {
    |RowsAfter(Listing(At(h, t), reaches), cursor)|
  }

  lemma LastStretchSeen(h: History, reaches: set<Reach>, p: Family -> bool, now: nat, t: nat, d: Document)
    requires Changes(h, now) == 0 && Seen(h, reaches, p, now, t, d)
    ensures d in Listing(At(h, |h|), reaches)
  {
    hide Listing, IsHistory;
    var s :| now <= s < t && d in Listing(At(h, s), reaches);
    assert At(h, s) == At(h, |h|);
  }

  /** Once nobody else changes anything, a page with a cursor brings the end of the stream closer. */
  lemma DeliveryShrinks(h: History, reaches: set<Reach>, p: Family -> bool, from: Cursor, page: seq<Document>,
                        next: Cursor, now: nat, t: nat)
    requires Delivered(h, reaches, p, from, page, next, now, t) && Changes(h, now) == 0
    requires page != [] && next == Some(LastKey(page))
    ensures RowsAhead(h, reaches, next, |h|) < RowsAhead(h, reaches, from, |h|)
  {
    hide Complete;
    var last := page[|page| - 1];
    assert Genuine(h, reaches, p, from, next, now, t, last);
    LastStretchSeen(h, reaches, p, now, t, last);
    ListingAscends(At(h, |h|), reaches);
    FewerRowsAfter(Listing(At(h, |h|), reaches), from, last);
  }

  // ----- On a corpus that nobody changes a delivery is exactly the filtered listing -----

  function Matches(snapshot: seq<Document>, reaches: set<Reach>, p: Family -> bool, from: Cursor): seq<Document> {
    Keep(RowsAfter(Listing(snapshot, reaches), from), Matching(p))
  }

  lemma MatchesAscend(snapshot: seq<Document>, reaches: set<Reach>, p: Family -> bool, from: Cursor)
    requires DistinctIds(snapshot)
    ensures Ascending(Matches(snapshot, reaches, p, from))
  {
    ListingAscends(snapshot, reaches);
    KeepAscending(Listing(snapshot, reaches), Later(from));
    KeepAscending(RowsAfter(Listing(snapshot, reaches), from), Matching(p));
  }

  lemma FixedMeansStays(h: History, reaches: set<Reach>, p: Family -> bool, start: nat, now: nat, d: Document)
    requires Fixed(h, start) && d in Listing(At(h, start), reaches) && p(d.item)
    ensures Stays(h, reaches, p, start, now, d.key)
  {
    var reach :| reach in reaches && Reaches(reach, d.item);
    var listing := Listing(At(h, start), {reach});
    assert d in listing;
    var j :| 0 <= j < |listing| && listing[j] == d;
    assert Present(listing, p, d.key);
    assert StaysIn(h, reach, p, start, now, d.key);
  }

  lemma GenuineMatches(h: History, reaches: set<Reach>, p: Family -> bool, from: Cursor, next: Cursor,
                       start: nat, now: nat, d: Document)
    requires Fixed(h, start) && Genuine(h, reaches, p, from, next, start, now, d)
    ensures d in Keep(Matches(At(h, start), reaches, p, from), Earlier(next))
  {
  }

  lemma DeliveredIsCut(h: History, reaches: set<Reach>, p: Family -> bool, from: Cursor, rows: seq<Document>,
                       next: Cursor, start: nat, now: nat)
    requires Fixed(h, start) && Delivered(h, reaches, p, from, rows, next, start, now)
    ensures rows == Keep(Matches(At(h, start), reaches, p, from), Earlier(next))
  {
    hide Fixed, Stays, Genuine;
    var m := Matches(At(h, start), reaches, p, from);
    var cut := Keep(m, Earlier(next));
    MatchesAscend(At(h, start), reaches, p, from);
    KeepAscending(m, Earlier(next));
    forall d | d in rows
      ensures d in cut
    {
      var i :| 0 <= i < |rows| && rows[i] == d;
      GenuineMatches(h, reaches, p, from, next, start, now, rows[i]);
    }
    forall d | d in cut
      ensures d in rows
    {
      FixedMeansStays(h, reaches, p, start, now, d);
      assert Owed(h, reaches, p, from, next, start, now, d.key);
      var i :| 0 <= i < |rows| && rows[i].key == d.key;
      assert rows[i] in rows && rows[i] in cut;
      SameKeySameRow(cut, rows[i], d);
    }
    AscendingUnique(rows, cut);
  }

  lemma DeliveredIsExact(h: History, reaches: set<Reach>, p: Family -> bool, from: Cursor, rows: seq<Document>,
                         next: Cursor, start: nat, now: nat)
    requires Fixed(h, start) && Delivered(h, reaches, p, from, rows, next, start, now)
    ensures var m := Matches(At(h, start), reaches, p, from);
            if next.None? then rows == m else rows + Matches(At(h, start), reaches, p, next) == m
  {
    var m := Matches(At(h, start), reaches, p, from);
    MatchesAscend(At(h, start), reaches, p, from);
    DeliveredIsCut(h, reaches, p, from, rows, next, start, now);
    if next.None? {
      KeepAll(m, Earlier(next));
    } else {
      SplitsAtCursor(m, next.value);
      MatchesAscend(At(h, start), reaches, p, next);
      KeepAscending(m, Later(next));
      AscendingUnique(RowsAfter(m, next), Matches(At(h, start), reaches, p, next));
    }
  }

  /** What a delivery of the whole stream means, with its predicates unfolded. */
  lemma UnfoldDelivered(h: History, reaches: set<Reach>, p: Family -> bool, all: seq<Document>, start: nat, now: nat)
    requires Delivered(h, reaches, p, None, all, None, start, now)
    ensures forall i, j :: 0 <= i < j < |all| ==> Before(all[i].key, all[j].key)
    ensures forall i :: 0 <= i < |all| ==> Seen(h, reaches, p, start, now, all[i])
    ensures forall key :: Stays(h, reaches, p, start, now, key) ==> HasKey(all, key)
    ensures Fixed(h, start) ==> all == Keep(Listing(At(h, start), reaches), Matching(p))
  {
    hide Stays, Seen;
    forall i | 0 <= i < |all|
      ensures Seen(h, reaches, p, start, now, all[i])
    {
      assert Genuine(h, reaches, p, None, None, start, now, all[i]);
    }
    forall key | Stays(h, reaches, p, start, now, key)
      ensures HasKey(all, key)
    {
      assert Owed(h, reaches, p, None, None, start, now, key);
    }
    if Fixed(h, start) {
      DeliveredIsExact(h, reaches, p, None, all, None, start, now);
      KeepAll(Listing(At(h, start), reaches), Later(None));
    }
  }
}
