/**
  `GET /knowledge/catalog`: the streams of every scope of the caller are drained, merged by document
  id, sorted, narrowed to documents with a visible latest version, cut to one page, and peeked beyond
  to decide whether a cursor is due.
 */
module KnowledgeCatalog {
  import opened Wrappers
  import opened Keyset
  import opened Lifecycle
  import opened Catalog
  import opened DocumentListing

  const MAX_PAGE_LIMIT: nat := 200
  const DEFAULT_VISIBILITY: set<Status> := {Validated, NeedsReview}

  datatype Item = Item(documentId: int, filename: string, number: int, status: Status, versions: nat, scopes: set<Link>)

  // ----- The latest visible version of a family -----

  /** `max(versions, key=version_number)`: the first of the highest-numbered versions. */
  function FirstHighest(versions: seq<Version>): (r: Version)
    requires versions != []
    ensures r in versions && forall v :: v in versions ==> v.number <= r.number
  {
    if |versions| == 1 then versions[0]
    else
      var rest := FirstHighest(versions[1..]);
      assert versions == [versions[0]] + versions[1..];
      if versions[0].number >= rest.number then versions[0] else rest
  }

  /** `sorted(versions, key=version_number)[-1]`: the last of the highest-numbered versions. */
  function LastHighest(versions: seq<Version>): (r: Version)
    requires versions != []
    ensures r in versions && forall v :: v in versions ==> v.number <= r.number
  {
    if |versions| == 1 then versions[0]
    else
      var rest := LastHighest(versions[1..]);
      assert versions == [versions[0]] + versions[1..];
      if versions[0].number > rest.number then versions[0] else rest
  }

  function NotSuperseded(versions: seq<Version>): seq<Version> {
    Keep(versions, (v: Version) => v.status != Superseded)
  }

  /** The filter of a request: the statuses shown, and whether the caller asked for them. */
  datatype View = View(statuses: set<Status>, explicit: bool, filename: Option<string>)

  function ViewOf(status: Option<set<Status>>, filename: Option<string>): View {
    View(if status.Some? && status.value != {} then status.value else DEFAULT_VISIBILITY, status.Some?, filename)
  }

  /** SUPERSEDED versions count only when the request asked for them. */
  predicate AsksForAll(view: View) {
    view.explicit && Superseded in view.statuses
  }

  function LatestShown(view: View, versions: seq<Version>): Option<Version> {
    if versions == [] then None
    else if AsksForAll(view) then Some(LastHighest(versions))
    else if NotSuperseded(versions) == [] then None
    else Some(FirstHighest(NotSuperseded(versions)))
  }

  function BuildCatalogItem(view: View, document: Document): Option<Item> {
    var latest := LatestShown(view, document.item.versions);
    if latest.None? || latest.value.status !in view.statuses then None
    else Some(Item(document.key.id, latest.value.filename, latest.value.number, latest.value.status,
                   |document.item.versions|, document.item.scopes))
  }

  /** Version i has the highest number of those that count, all or those not SUPERSEDED; of several, the last if all count, else the first. */
  ghost predicate IsLatest(all: bool, versions: seq<Version>, i: nat) {
    && i < |versions| && (all || versions[i].status != Superseded)
    && forall j :: 0 <= j < |versions| && (all || versions[j].status != Superseded) ==>
         && versions[j].number <= versions[i].number
         && (versions[j].number == versions[i].number ==> if all then j <= i else i <= j)
  }

  lemma {:induction false} LastHighestAt(versions: seq<Version>) returns (i: nat)
    requires versions != []
    ensures i < |versions| && versions[i] == LastHighest(versions)
    ensures forall j :: 0 <= j < |versions| ==>
              versions[j].number <= versions[i].number && (versions[j].number == versions[i].number ==> j <= i)
  {
    if |versions| == 1 {
      i := 0;
    } else {
      var k := LastHighestAt(versions[1..]);
      i := if versions[0].number > versions[1..][k].number then 0 else k + 1;
      assert forall j :: 0 < j < |versions| ==> versions[j] == versions[1..][j - 1];
    }
  }

  lemma {:induction false} FirstHighestAt(versions: seq<Version>) returns (i: nat)
    requires NotSuperseded(versions) != []
    ensures i < |versions| && versions[i] == FirstHighest(NotSuperseded(versions)) && versions[i].status != Superseded
    ensures forall j :: 0 <= j < |versions| && versions[j].status != Superseded ==>
              versions[j].number <= versions[i].number && (versions[j].number == versions[i].number ==> i <= j)
  {
    hide FirstHighest, NotSuperseded;
    NotSupersededFirst(versions);
    var rest := NotSuperseded(versions[1..]);
    assert [] + rest == rest && rest + [] == rest;
    if rest == [] {
      i := 0;
      assert NotSuperseded(versions) == [versions[0]];
      FirstOf(versions[0], []);
    } else {
      var k := FirstHighestAt(versions[1..]);
      FirstOf(versions[0], rest);
      assert forall j :: 0 < j < |versions| ==> versions[j] == versions[1..][j - 1];
      i := if versions[0].status != Superseded && versions[0].number >= versions[k + 1].number then 0 else k + 1;
    }
  }

  lemma NotSupersededFirst(versions: seq<Version>)
    requires NotSuperseded(versions) != []
    ensures versions != []
    ensures NotSuperseded(versions) == (if versions[0].status == Superseded then [] else [versions[0]]) + NotSuperseded(versions[1..])
    ensures NotSuperseded(versions[1..]) == [] ==> forall j :: 0 < j < |versions| ==> versions[j].status == Superseded
  {
    forall j | 0 < j < |versions| && versions[j].status != Superseded
      ensures NotSuperseded(versions[1..]) != []
    {
      assert versions[j] == versions[1..][j - 1] && versions[j] in versions[1..];
    }
  }

  lemma FirstOf(v: Version, rest: seq<Version>)
    ensures FirstHighest([v] + rest) == if rest == [] || v.number >= FirstHighest(rest).number then v else FirstHighest(rest)
  {
    assert ([v] + rest)[1..] == rest;
  }

  /**
    A family without a candidate version is hidden. Any other is shown if and only if its latest candidate has a status
    the view shows, and then as that version, ties in number included.
   */
  lemma ItemIsLatest(view: View, document: Document) returns (i: nat)
    ensures var versions := document.item.versions;
            if forall v :: v in versions ==> v.status == Superseded && !AsksForAll(view) then BuildCatalogItem(view, document) == None
            else
              && IsLatest(AsksForAll(view), versions, i)
              && BuildCatalogItem(view, document)
                 == if versions[i].status in view.statuses
                    then Some(Item(document.key.id, versions[i].filename, versions[i].number, versions[i].status, |versions|, document.item.scopes))
                    else None
  {
    hide FirstHighest, LastHighest;
    var versions := document.item.versions;
    i := 0;
    if AsksForAll(view) && versions != [] {
      i := LastHighestAt(versions);
    } else if !AsksForAll(view) && NotSuperseded(versions) != [] {
      i := FirstHighestAt(versions);
    } else {
      assert forall v :: v in versions && v.status != Superseded ==> v in NotSuperseded(versions);
    }
  }

  predicate NameMatches(filename: Option<string>, family: Family) {
    filename.Some? && filename.value != "" ==> Contains(Lower(family.filename), Lower(filename.value))
  }

  predicate ShowsFamily(view: View, family: Family) {
    && NameMatches(view.filename, family)
    && var latest := LatestShown(view, family.versions);
       latest.Some? && latest.value.status in view.statuses
  }

  function Shows(view: View): Family -> bool {
    (family: Family) => ShowsFamily(view, family)
  }

  function Any(): Family -> bool {
    (family: Family) => true
  }

  /** The caller's reach: the empty scope tuple stands for authentication being switched off. */
  function ReachOf(links: seq<Link>): set<Reach> {
    if links == [] then {Everything} else set l | l in links :: Scoped(l)
  }

  // ----- What a request shows -----

  /** The statuses a request shows: those it asks for, or VALIDATED and NEEDS_REVIEW. */
  predicate Visible(status: Option<set<Status>>, s: Status) {
    if status.Some? && status.value != {} then s in status.value else s == Validated || s == NeedsReview
  }

  /** SUPERSEDED versions count when the request asks for SUPERSEDED. */
  predicate CountsAll(status: Option<set<Status>>) {
    status.Some? && Superseded in status.value
  }

  /** The family has the name asked for, and its latest version has a visible status. */
  ghost predicate Qualifies(status: Option<set<Status>>, filename: Option<string>, family: Family) {
    && (filename.Some? && filename.value != "" ==>
          exists i :: 0 <= i <= |family.filename| && StandsAt(family.filename, filename.value, i))
    && exists j: nat :: IsLatest(CountsAll(status), family.versions, j) && Visible(status, family.versions[j].status)
  }

  /** The item describes the document and its latest version. */
  ghost predicate Describes(status: Option<set<Status>>, d: Document, item: Item) {
    && item.documentId == d.key.id && item.versions == |d.item.versions| && item.scopes == d.item.scopes
    && exists j: nat :: IsLatest(CountsAll(status), d.item.versions, j)
         && item.filename == d.item.versions[j].filename && item.number == d.item.versions[j].number
         && item.status == d.item.versions[j].status
  }

  lemma LatestIsOne(all: bool, versions: seq<Version>, i: nat, j: nat)
    requires IsLatest(all, versions, i) && IsLatest(all, versions, j)
    ensures i == j
  {
    assert versions[i].number == versions[j].number;
  }

  lemma ViewMeans(status: Option<set<Status>>, filename: Option<string>)
    ensures ViewOf(status, filename).filename == filename && AsksForAll(ViewOf(status, filename)) == CountsAll(status)
    ensures forall s :: s in ViewOf(status, filename).statuses <==> Visible(status, s)
  {
  }

  lemma ItemMeans(status: Option<set<Status>>, filename: Option<string>, d: Document)
    ensures var item := BuildCatalogItem(ViewOf(status, filename), d);
            && (item.Some? <==> exists j: nat :: IsLatest(CountsAll(status), d.item.versions, j) && Visible(status, d.item.versions[j].status))
            && (item.Some? ==> Describes(status, d, item.value) && Visible(status, item.value.status))
  {
    hide ViewOf, AsksForAll, BuildCatalogItem, Visible, CountsAll;
    ViewMeans(status, filename);
    var i := ItemIsLatest(ViewOf(status, filename), d);
    forall j: nat | IsLatest(CountsAll(status), d.item.versions, j)
      ensures IsLatest(CountsAll(status), d.item.versions, i) && i == j
    {
      assert d.item.versions[j] in d.item.versions;
      LatestIsOne(CountsAll(status), d.item.versions, i, j);
    }
  }

  lemma NameMeans(filename: Option<string>, family: Family)
    ensures NameMatches(filename, family) <==>
              (filename.Some? && filename.value != "" ==>
                 exists i :: 0 <= i <= |family.filename| && StandsAt(family.filename, filename.value, i))
  {
    if filename.Some? {
      ContainsMeans(family.filename, filename.value);
    }
  }

  lemma ShowsMeans(status: Option<set<Status>>, filename: Option<string>, d: Document)
    ensures ShowsFamily(ViewOf(status, filename), d.item) <==> Qualifies(status, filename, d.item)
  {
    hide BuildCatalogItem, NameMatches, LatestShown, Visible, CountsAll, IsLatest, StandsAt;
    ViewMeans(status, filename);
    NameMeans(filename, d.item);
    ItemMeans(status, filename, d);
    if NameMatches(filename, d.item) {
      RowIffShown(ViewOf(status, filename), d);
    }
  }

  lemma ReachMeans(links: seq<Link>, family: Family)
    ensures InReach(ReachOf(links), family) <==>
              family.archivedAt == None && (links == [] || exists l :: l in links && l in family.scopes)
  {
    if links == [] {
      assert InReach(ReachOf(links), family) <==> Reaches(Everything, family);
    } else {
      forall l | l in links && l in family.scopes && family.archivedAt == None
        ensures InReach(ReachOf(links), family)
      {
        assert Scoped(l) in ReachOf(links) && Reaches(Scoped(l), family);
      }
    }
  }

  // ----- Draining and merging the scope streams -----

  predicate HasId(rows: seq<Document>, id: int) {
    exists i :: 0 <= i < |rows| && rows[i].key.id == id
  }

  /** `seen.setdefault(doc.id, doc)` for one page; `seen` lists the dict's values in insertion order. */
  method AddMissing(before: seq<Document>, page: seq<Document>) returns (seen: seq<Document>)
    requires DistinctIds(before)
    ensures DistinctIds(seen) && before <= seen
    ensures forall d :: d in seen ==> d in before || d in page
    ensures forall i :: 0 <= i < |page| ==> HasId(seen, page[i].key.id)
  {
    seen := before;
    for i := 0 to |page|
      invariant DistinctIds(seen) && before <= seen
      invariant forall d :: d in seen ==> d in before || d in page
      invariant forall j :: 0 <= j < i ==> HasId(seen, page[j].key.id)
    {
      if !HasId(seen, page[i].key.id) {
        ghost var shorter := seen;
        seen := seen + [page[i]];
        assert seen[|shorter|].key.id == page[i].key.id;
        forall j | 0 <= j < i
          ensures HasId(seen, page[j].key.id)
        {
          var k :| 0 <= k < |shorter| && shorter[k].key.id == page[j].key.id;
          assert seen[k].key.id == page[j].key.id;
        }
      }
    }
  }

  /** What has been merged so far: rows really seen, and every row owed by a drained stream. */
  ghost predicate Merged(h: History, reaches: set<Reach>, drained: set<Reach>, from: Cursor, seen: seq<Document>,
                         start: nat, now: nat) {
    && start <= now && DistinctIds(seen)
    && (forall i :: 0 <= i < |seen| ==> Genuine(h, reaches, Any(), from, None, start, now, seen[i]))
    && (forall reach, key :: reach in drained && Owed(h, {reach}, Any(), from, None, start, now, key) ==> HasKey(seen, key))
  }

  ghost predicate AllMerged(rows: seq<Document>, seen: seq<Document>) {
    forall i :: 0 <= i < |rows| ==> HasKey(seen, rows[i].key)
  }

  lemma SameIdSameKey(h: History, reaches: set<Reach>, s: nat, t: nat, a: Document, b: Document)
    requires KeysAreImmutable(h) && a.key.id == b.key.id
    requires Seen(h, reaches, Any(), s, t, a) && Seen(h, reaches, Any(), s, t, b)
    ensures a.key == b.key
  {
    hide SortByKey;
    var i :| s <= i < t && a in Listing(At(h, i), reaches);
    var j :| s <= j < t && b in Listing(At(h, j), reaches);
    assert a in At(h, i) && b in At(h, j);
  }

  lemma GenuineLonger(h: History, reaches: set<Reach>, from: Cursor, start: nat, now: nat, later: nat, d: Document)
    requires Genuine(h, reaches, Any(), from, None, start, now, d) && now <= later
    ensures Genuine(h, reaches, Any(), from, None, start, later, d)
  {
  }

  lemma OwedShorter(h: History, reach: Reach, from: Cursor, start: nat, now: nat, s: nat, n: nat, key: Key)
    requires Owed(h, {reach}, Any(), from, None, start, now, key) && start <= s && n <= now
    ensures Owed(h, {reach}, Any(), from, None, s, n, key)
  {
    StaysShorter(h, {reach}, Any(), start, now, s, n, key);
  }

  lemma HasKeyInLonger(before: seq<Document>, seen: seq<Document>, key: Key)
    requires before <= seen && HasKey(before, key)
    ensures HasKey(seen, key)
  {
    var i :| 0 <= i < |before| && before[i].key == key;
    assert seen[i].key == key;
  }

  /** Merging one more page keeps the merge right. */
  lemma PageMerged(h: History, reaches: set<Reach>, drained: set<Reach>, from: Cursor, before: seq<Document>,
                   rows: seq<Document>, page: seq<Document>, seen: seq<Document>, start: nat, now: nat)
    requires KeysAreImmutable(h) && Merged(h, reaches, drained, from, before, start, now) && AllMerged(rows, before)
    requires forall i :: 0 <= i < |page| ==> Genuine(h, reaches, Any(), from, None, start, now + 1, page[i])
    requires DistinctIds(seen) && before <= seen
    requires forall d :: d in seen ==> d in before || d in page
    requires forall i :: 0 <= i < |page| ==> HasId(seen, page[i].key.id)
    ensures Merged(h, reaches, drained, from, seen, start, now + 1)
    ensures AllMerged(rows + page, seen)
  {
    hide Genuine, Owed, KeysAreImmutable, IsHistory, DistinctIds;
    forall i | 0 <= i < |seen|
      ensures Genuine(h, reaches, Any(), from, None, start, now + 1, seen[i])
    {
      assert seen[i] in seen;
      if seen[i] in before {
        var j :| 0 <= j < |before| && before[j] == seen[i];
        GenuineLonger(h, reaches, from, start, now, now + 1, before[j]);
      } else {
        var j :| 0 <= j < |page| && page[j] == seen[i];
      }
    }
    forall reach, key | reach in drained && Owed(h, {reach}, Any(), from, None, start, now + 1, key)
      ensures HasKey(seen, key)
    {
      OwedShorter(h, reach, from, start, now + 1, start, now, key);
      HasKeyInLonger(before, seen, key);
    }
    forall i | 0 <= i < |rows + page|
      ensures HasKey(seen, (rows + page)[i].key)
    {
      if i < |rows| {
        HasKeyInLonger(before, seen, rows[i].key);
      } else {
        var d := page[i - |rows|];
        var j :| 0 <= j < |seen| && seen[j].key.id == d.key.id;
        GenuineIsSeen(h, reaches, from, start, now + 1, d);
        GenuineIsSeen(h, reaches, from, start, now + 1, seen[j]);
        SameIdSameKey(h, reaches, start, now + 1, d, seen[j]);
      }
    }
  }

  lemma GenuineIsSeen(h: History, reaches: set<Reach>, from: Cursor, start: nat, now: nat, d: Document)
    requires Genuine(h, reaches, Any(), from, None, start, now, d)
    ensures Seen(h, reaches, Any(), start, now, d)
  {
  }

  /** A store page of one scope, as read: a delivery whose cursor is the store's own. */
  lemma ScopePage(h: History, links: seq<Link>, link: Link, from: Cursor, next: Cursor, start: nat, now: nat)
    requires link in links && start <= now && NotPast(from, next)
    ensures var (page, more) := ListInScope(At(h, now), link, next, MAX_PAGE_LIMIT);
            && Delivered(h, {Scoped(link)}, Any(), next, page, more, now, now + 1)
            && (more.Some? ==> page != [] && more == Some(LastKey(page)) && NotPast(from, more))
            && forall i :: 0 <= i < |page| ==> Genuine(h, ReachOf(links), Any(), from, None, start, now + 1, page[i])
  {
    hide At, Listing, Genuine, Complete, Ascending, RowsAfter;
    var (page, more) := ListInScope(At(h, now), link, next, MAX_PAGE_LIMIT);
    var reach := Scoped(link);
    KeepAll(page, Matching(Any()));
    ListingAtAscends(h, reach, now);
    FetchSplits(Listing(At(h, now), {reach}), next, MAX_PAGE_LIMIT);
    if more.None? {
      LastPageDelivers(h, reach, Any(), next, MAX_PAGE_LIMIT, now);
    } else {
      PageDelivers(h, reach, Any(), next, MAX_PAGE_LIMIT, now);
    }
    PageIsGenuine(h, links, link, from, next, page, more, start, now);
  }

  lemma PageIsGenuine(h: History, links: seq<Link>, link: Link, from: Cursor, next: Cursor, page: seq<Document>,
                      more: Cursor, start: nat, now: nat)
    requires link in links && start <= now && NotPast(from, next)
    requires Sound(h, {Scoped(link)}, Any(), next, page, more, now, now + 1)
    ensures forall i :: 0 <= i < |page| ==> Genuine(h, ReachOf(links), Any(), from, None, start, now + 1, page[i])
  {
    hide Genuine;
    forall i | 0 <= i < |page|
      ensures Genuine(h, ReachOf(links), Any(), from, None, start, now + 1, page[i])
    {
      assert Genuine(h, {Scoped(link)}, Any(), next, more, now, now + 1, page[i]);
      GenuineInAll(h, links, link, from, next, page[i], more, start, now);
    }
  }

  lemma GenuineInAll(h: History, links: seq<Link>, link: Link, from: Cursor, next: Cursor, d: Document,
                     more: Cursor, start: nat, now: nat)
    requires link in links && start <= now && NotPast(from, next)
    requires Genuine(h, {Scoped(link)}, Any(), next, more, now, now + 1, d)
    ensures Genuine(h, ReachOf(links), Any(), from, None, start, now + 1, d)
  {
    assert d in Listing(At(h, now), {Scoped(link)});
    WiderReach(At(h, now), links, link, d);
  }

  lemma WiderReach(snapshot: seq<Document>, links: seq<Link>, link: Link, d: Document)
    requires link in links && d in Listing(snapshot, {Scoped(link)})
    ensures d in Listing(snapshot, ReachOf(links))
  {
    assert Scoped(link) in ReachOf(links);
  }

  lemma StreamMerged(h: History, reaches: set<Reach>, drained: set<Reach>, reach: Reach, from: Cursor,
                     rows: seq<Document>, seen: seq<Document>, start: nat, t: nat, now: nat)
    requires start <= t && Delivered(h, {reach}, Any(), from, rows, None, t, now) && AllMerged(rows, seen)
    requires Merged(h, reaches, drained, from, seen, start, now)
    ensures Merged(h, reaches, drained + {reach}, from, seen, start, now)
  {
    hide Sound, Genuine, Owed, IsHistory, DistinctIds;
    forall key | Owed(h, {reach}, Any(), from, None, start, now, key)
      ensures HasKey(seen, key)
    {
      OwedShorter(h, reach, from, start, now, t, now, key);
      assert HasKey(rows, key);
      var i :| 0 <= i < |rows| && rows[i].key == key;
      assert HasKey(seen, rows[i].key);
    }
  }

  /** Walks one scope to its end along the store's own cursors, merging page after page. */
  method DrainScope(h: History, links: seq<Link>, link: Link, from: Cursor, before: seq<Document>,
                    ghost drained: set<Reach>, ghost start: nat, t: nat)
    returns (seen: seq<Document>, now: nat)
    requires KeysAreImmutable(h) && link in links && start <= t
    requires Merged(h, ReachOf(links), drained, from, before, start, t)
    ensures t < now
    ensures Merged(h, ReachOf(links), drained + {Scoped(link)}, from, seen, start, now)
  {
    hide Delivered, RowsAhead, IsHistory, ListInScope, Genuine, Owed, HasKey, KeysAreImmutable, ReachOf, HasId, AllMerged;
    seen, now := before, t;
    var next := from;
    ghost var rows: seq<Document> := [];
    assert AllMerged(rows, seen) by { NothingToMerge(seen); }
    while true
      invariant t <= now && NotPast(from, next) && (now == t ==> next == from && rows == [])
      invariant now > t ==> next.Some? && Delivered(h, {Scoped(link)}, Any(), from, rows, next, t, now)
      invariant Merged(h, ReachOf(links), drained, from, seen, start, now) && AllMerged(rows, seen)
      decreases Changes(h, now), RowsAhead(h, {Scoped(link)}, next, |h|)
    {
      var fetched := ListInScope(At(h, now), link, next, MAX_PAGE_LIMIT);
      var page, more := fetched.0, fetched.1;
      ScopePage(h, links, link, from, next, start, now);
      ghost var shorter := seen;
      seen := AddMissing(seen, page);
      PageMerged(h, ReachOf(links), drained, from, shorter, rows, page, seen, start, now);
      if now == t {
        assert rows + page == page;
      } else {
        DeliveredThen(h, {Scoped(link)}, Any(), from, rows, next.value, page, more, t, now, now + 1);
      }
      if more.Some? && Changes(h, now) == 0 {
        DeliveryShrinks(h, {Scoped(link)}, Any(), next, page, more, now, now + 1);
      }
      rows := rows + page;
      now := now + 1;
      if more.None? {
        StreamMerged(h, ReachOf(links), drained, Scoped(link), from, rows, seen, start, t, now);
        break;
      }
      next := more;
    }
  }

  lemma NothingToMerge(seen: seq<Document>)
    ensures AllMerged([], seen)
  {
  }

  function Named(filename: Option<string>): Family -> bool {
    (family: Family) => NameMatches(filename, family)
  }

  /** Narrowing a delivery to fewer families delivers those. */
  lemma NarrowedDelivery(h: History, reaches: set<Reach>, p: Family -> bool, q: Family -> bool, from: Cursor,
                         rows: seq<Document>, next: Cursor, start: nat, now: nat)
    requires Delivered(h, reaches, p, from, rows, next, start, now)
    requires forall family :: q(family) ==> p(family)
    ensures Delivered(h, reaches, q, from, Keep(rows, Matching(q)), next, start, now)
  {
    hide Stays, Genuine, Owed, HasKey;
    var kept := Keep(rows, Matching(q));
    KeepAscending(rows, Matching(q));
    forall i | 0 <= i < |kept|
      ensures Genuine(h, reaches, q, from, next, start, now, kept[i])
    {
      assert kept[i] in kept && kept[i] in rows;
      var j :| 0 <= j < |rows| && rows[j] == kept[i];
      StillGenuine(h, reaches, p, q, from, next, start, now, rows[j]);
    }
    forall key | Owed(h, reaches, q, from, next, start, now, key)
      ensures HasKey(kept, key)
    {
      OwedIsKept(h, reaches, p, q, from, rows, next, start, now, key);
    }
  }

  lemma StillGenuine(h: History, reaches: set<Reach>, p: Family -> bool, q: Family -> bool, from: Cursor,
                     next: Cursor, start: nat, now: nat, d: Document)
    requires Genuine(h, reaches, p, from, next, start, now, d) && q(d.item)
    ensures Genuine(h, reaches, q, from, next, start, now, d)
  {
  }

  lemma OwedIsKept(h: History, reaches: set<Reach>, p: Family -> bool, q: Family -> bool, from: Cursor,
                   rows: seq<Document>, next: Cursor, start: nat, now: nat, key: Key)
    requires Sound(h, reaches, p, from, rows, next, start, now) && Complete(h, reaches, p, from, rows, next, start, now)
    requires forall family :: q(family) ==> p(family)
    requires Owed(h, reaches, q, from, next, start, now, key)
    ensures HasKey(Keep(rows, Matching(q)), key)
  {
    hide Stays, Seen;
    var kept := Keep(rows, Matching(q));
    StaysWeaker(h, reaches, p, q, start, now, key);
    assert Owed(h, reaches, p, from, next, start, now, key);
    var i :| 0 <= i < |rows| && rows[i].key == key;
    assert Genuine(h, reaches, p, from, next, start, now, rows[i]);
    SeenRowSatisfies(h, reaches, p, q, start, now, rows[i]);
    assert rows[i] in rows && rows[i] in kept;
    var j :| 0 <= j < |kept| && kept[j] == rows[i];
    assert kept[j].key == key;
  }

  lemma StaysWeaker(h: History, reaches: set<Reach>, p: Family -> bool, q: Family -> bool, start: nat, now: nat, key: Key)
    requires Stays(h, reaches, q, start, now, key) && forall family :: q(family) ==> p(family)
    ensures Stays(h, reaches, p, start, now, key)
  {
    hide Listing;
    var reach :| reach in reaches && StaysIn(h, reach, q, start, now, key);
    forall t | start <= t < now
      ensures Present(Listing(At(h, t), {reach}), p, key)
    {
      assert Present(Listing(At(h, t), {reach}), q, key);
    }
    assert StaysIn(h, reach, p, start, now, key);
  }

  /** A row seen under a key that satisfied q all the time satisfies q. */
  lemma SeenRowSatisfies(h: History, reaches: set<Reach>, p: Family -> bool, q: Family -> bool, start: nat, now: nat, d: Document)
    requires Seen(h, reaches, p, start, now, d) && Stays(h, reaches, q, start, now, d.key)
    ensures q(d.item)
  {
    hide Listing;
    var t :| start <= t < now && d in Listing(At(h, t), reaches);
    var reach :| reach in reaches && StaysIn(h, reach, q, start, now, d.key);
    var listing := Listing(At(h, t), {reach});
    assert Present(listing, q, d.key);
    var i :| 0 <= i < |listing| && listing[i].key == d.key && q(listing[i].item);
    OneRowPerKey(At(h, t), {reach}, reaches, listing[i], d);
  }

  lemma OneRowPerKey(snapshot: seq<Document>, r1: set<Reach>, r2: set<Reach>, a: Document, b: Document)
    requires DistinctIds(snapshot) && a in Listing(snapshot, r1) && b in Listing(snapshot, r2) && a.key == b.key
    ensures a == b
  {
    SortAscending(snapshot);
    SameKeySameRow(SortByKey(snapshot), a, b);
  }

  lemma OwedBySome(h: History, reaches: set<Reach>, from: Cursor, start: nat, now: nat, key: Key) returns (reach: Reach)
    requires Owed(h, reaches, Any(), from, None, start, now, key)
    ensures reach in reaches && Owed(h, {reach}, Any(), from, None, start, now, key)
  {
    reach :| reach in reaches && StaysIn(h, reach, Any(), start, now, key);
    assert Stays(h, {reach}, Any(), start, now, key);
  }

  lemma MergedDelivers(h: History, reaches: set<Reach>, from: Cursor, seen: seq<Document>, start: nat, now: nat)
    requires start < now && Merged(h, reaches, reaches, from, seen, start, now)
    ensures Delivered(h, reaches, Any(), from, SortByKey(seen), None, start, now)
  {
    hide Genuine, Owed;
    var rows := SortByKey(seen);
    SortAscending(seen);
    forall i | 0 <= i < |rows|
      ensures Genuine(h, reaches, Any(), from, None, start, now, rows[i])
    {
      assert rows[i] in rows && rows[i] in seen;
      var j :| 0 <= j < |seen| && seen[j] == rows[i];
    }
    forall key | Owed(h, reaches, Any(), from, None, start, now, key)
      ensures HasKey(rows, key)
    {
      var reach := OwedBySome(h, reaches, from, start, now, key);
      assert HasKey(seen, key);
      var j :| 0 <= j < |seen| && seen[j].key == key;
      assert seen[j] in seen && seen[j] in rows;
      var i :| 0 <= i < |rows| && rows[i] == seen[j];
      assert rows[i].key == key;
    }
  }

  lemma EverythingDelivers(h: History, filename: Option<string>, cursor: Cursor, t: nat)
    ensures Delivered(h, {Everything}, Named(filename), cursor,
                      Keep(RowsAfter(Listing(At(h, t), {Everything}), cursor), Matching(Named(filename))), None, t, t + 1)
  {
    LastPageDelivers(h, Everything, Named(filename), cursor, |RowsAfter(Listing(At(h, t), {Everything}), cursor)| + 1, t);
  }

  /** All documents after the cursor the caller can see, by name, merged over the caller's scopes. */
  method CollectDocuments(h: History, links: seq<Link>, cursor: Cursor, filename: Option<string>, start: nat)
    returns (documents: seq<Document>, now: nat)
    requires KeysAreImmutable(h)
    ensures Delivered(h, ReachOf(links), Named(filename), cursor, documents, None, start, now)
  {
    hide Delivered, IsHistory, Listing, KeysAreImmutable;
    if links == [] {
      documents := Keep(RowsAfter(Listing(At(h, start), {Everything}), cursor), Matching(Named(filename)));
      now := start + 1;
      EverythingDelivers(h, filename, cursor, start);
      return;
    }
    var seen: seq<Document> := [];
    ghost var drained: set<Reach> := {};
    now := start;
    for i := 0 to |links|
      invariant start <= now && (i > 0 ==> start < now)
      invariant drained == (set l | l in links[..i] :: Scoped(l))
      invariant Merged(h, ReachOf(links), drained, cursor, seen, start, now)
    {
      seen, now := DrainScope(h, links, links[i], cursor, seen, drained, start, now);
      assert links[..i + 1] == links[..i] + [links[i]];
      drained := drained + {Scoped(links[i])};
    }
    assert links[..|links|] == links;
    documents := SortByKey(seen);
    MergedDelivers(h, ReachOf(links), cursor, seen, start, now);
    NarrowedDelivery(h, ReachOf(links), Any(), Named(filename), cursor, documents, None, start, now);
    documents := Keep(documents, Matching(Named(filename)));
  }

  // ----- One request -----

  /** The visible documents among those collected, in order, up to `limit` of them, as items. */
  method TakeVisible(view: View, documents: seq<Document>, limit: nat)
    returns (items: seq<Item>, shown: seq<Document>)
    requires limit > 0 && forall d :: d in documents ==> NameMatches(view.filename, d.item)
    ensures shown == Take(Keep(documents, Matching(Shows(view))), limit)
    ensures Projects(view, shown, items)
  {
    hide BuildCatalogItem, NameMatches, ShowsFamily, Keep, Projects, Take;
    ghost var p := Matching(Shows(view));
    items, shown := [], [];
    NothingProjects(view);
    for i := 0 to |documents|
      invariant |items| == |shown| < limit && Projects(view, shown, items)
      invariant shown + Keep(documents[i..], p) == Keep(documents, p)
    {
      var row := BuildCatalogItem(view, documents[i]);
      KeepStep(documents, i, p, shown);
      RowIffShown(view, documents[i]);
      if row.Some? {
        OneProjects(view, documents[i], row.value);
        ProjectsThen(view, shown, items, [documents[i]], [row.value]);
        items, shown := items + [row.value], shown + [documents[i]];
        if |items| >= limit {
          TakeExactly(shown, Keep(documents[i + 1..], p), limit);
          return;
        }
      }
    }
    KeepEnds(documents, p);
    TakeExactly(shown, [], limit);
    assert shown + [] == shown;
  }

  lemma TakeExactly(shown: seq<Document>, rest: seq<Document>, limit: nat)
    requires |shown| == limit || (|shown| < limit && rest == [])
    ensures Take(shown + rest, limit) == shown
  {
  }

  lemma RowIffShown(view: View, d: Document)
    requires NameMatches(view.filename, d.item)
    ensures BuildCatalogItem(view, d).Some? <==> ShowsFamily(view, d.item)
  {
  }

  predicate Projects(view: View, shown: seq<Document>, items: seq<Item>) {
    |items| == |shown| && forall i :: 0 <= i < |items| ==> BuildCatalogItem(view, shown[i]) == Some(items[i])
  }

  /** The promise of one request; `shown` are the documents behind its items. */
  ghost predicate CatalogAnswers(h: History, links: seq<Link>, view: View, limit: nat, cursor: Cursor, items: seq<Item>,
                                 shown: seq<Document>, next: Cursor, start: nat, now: nat) {
    && |items| <= limit && Projects(view, shown, items)
    && (next.Some? ==> |shown| == limit > 0 && next == Some(LastKey(shown)))
    && Delivered(h, ReachOf(links), Shows(view), cursor, shown, next, start, now)
  }

  /** On an unchanged corpus: the first `limit` visible documents, and a cursor iff there are more. */
  ghost predicate CatalogExact(h: History, links: seq<Link>, view: View, limit: nat, cursor: Cursor,
                               shown: seq<Document>, next: Cursor, start: nat) {
    var visible := Matches(At(h, start), ReachOf(links), Shows(view), cursor);
    shown == Take(visible, limit) && (next.Some? <==> |visible| > limit)
  }

  /** Whether any of the documents is visible. */
  method AnyVisible(view: View, documents: seq<Document>) returns (found: bool)
    requires forall d :: d in documents ==> NameMatches(view.filename, d.item)
    ensures found <==> Keep(documents, Matching(Shows(view))) != []
  {
    hide BuildCatalogItem, NameMatches, ShowsFamily, Keep;
    for i := 0 to |documents|
      invariant [] + Keep(documents[i..], Matching(Shows(view))) == Keep(documents, Matching(Shows(view)))
    {
      KeepStep(documents, i, Matching(Shows(view)), []);
      RowIffShown(view, documents[i]);
      if BuildCatalogItem(view, documents[i]).Some? {
        return true;
      }
    }
    assert Keep(documents[|documents|..], Matching(Shows(view))) == [];
    return false;
  }

  method GetKnowledgeCatalog(h: History, links: seq<Link>, status: Option<set<Status>>, filename: Option<string>,
                             limit: nat, cursor: Cursor, start: nat)
    returns (items: seq<Item>, next: Cursor, shown: seq<Document>, now: nat)
    requires KeysAreImmutable(h) && limit > 0
    ensures CatalogAnswers(h, links, ViewOf(status, filename), limit, cursor, items, shown, next, start, now)
    ensures Fixed(h, start) ==> CatalogExact(h, links, ViewOf(status, filename), limit, cursor, shown, next, start)
    ensures |items| == |shown| && forall i :: 0 <= i < |items| ==>
              && Describes(status, shown[i], items[i])
              && (if status.Some? && status.value != {} then items[i].status in status.value else items[i].status in {Validated, NeedsReview})
    ensures forall d :: d in shown ==>
              && d.item.archivedAt == None && (links == [] || exists l :: l in links && l in d.item.scopes)
              && Qualifies(status, filename, d.item) && exists t :: start <= t < now && d in At(h, t)
    ensures Fixed(h, start) ==> forall d :: d in shown <==>
              && d in At(h, start) && d.item.archivedAt == None && (links == [] || exists l :: l in links && l in d.item.scopes)
              && Qualifies(status, filename, d.item) && After(cursor, d.key) && UpTo(next, d.key)
  {
    hide Delivered, KeysAreImmutable, IsHistory, Matches, Fixed, ReachOf, CatalogExact, Keep, BuildCatalogItem, Qualifies, Describes,
         After, UpTo;
    var view := ViewOf(status, filename);
    var documents;
    documents, now := CollectDocuments(h, links, cursor, filename, start);
    ghost var visible := Keep(documents, Matching(Shows(view)));
    VisibleDelivery(h, links, view, cursor, documents, start, now);
    items, shown := TakeVisible(view, documents, limit);
    next := None;
    if |items| >= limit {
      var last := shown[|shown| - 1];
      ghost var middle := now;
      var tail;
      tail, now := CollectDocuments(h, links, Some(last.key), filename, now);
      VisibleDelivery(h, links, view, Some(last.key), tail, middle, now);
      var more := AnyVisible(view, tail);
      if more {
        next := Some(last.key);
      }
      assert shown == visible[..limit];
      Peeked(h, links, view, limit, cursor, visible, Keep(tail, Matching(Shows(view))), start, middle, now);
    } else {
      assert shown == visible;
      Unfilled(h, links, view, limit, cursor, visible, start, now);
    }
    ItemsMean(status, filename, shown, items);
    AnswerMeans(h, links, status, filename, cursor, shown, next, start, now);
  }

  lemma VisibleDelivery(h: History, links: seq<Link>, view: View, cursor: Cursor, documents: seq<Document>,
                        start: nat, now: nat)
    requires Delivered(h, ReachOf(links), Named(view.filename), cursor, documents, None, start, now)
    ensures Delivered(h, ReachOf(links), Shows(view), cursor, Keep(documents, Matching(Shows(view))), None, start, now)
    ensures forall d :: d in documents ==> NameMatches(view.filename, d.item)
  {
    hide Stays, Listing;
    NarrowedDelivery(h, ReachOf(links), Named(view.filename), Shows(view), cursor, documents, None, start, now);
    forall d | d in documents
      ensures NameMatches(view.filename, d.item)
    {
      var i :| 0 <= i < |documents| && documents[i] == d;
      assert Genuine(h, ReachOf(links), Named(view.filename), cursor, None, start, now, documents[i]);
    }
  }

  lemma Unfilled(h: History, links: seq<Link>, view: View, limit: nat, cursor: Cursor, visible: seq<Document>,
                 start: nat, now: nat)
    requires Delivered(h, ReachOf(links), Shows(view), cursor, visible, None, start, now) && |visible| < limit
    ensures Fixed(h, start) ==> CatalogExact(h, links, view, limit, cursor, visible, None, start)
  {
    if Fixed(h, start) {
      DeliveredIsExact(h, ReachOf(links), Shows(view), cursor, visible, None, start, now);
    }
  }

  lemma Peeked(h: History, links: seq<Link>, view: View, limit: nat, cursor: Cursor, visible: seq<Document>,
               tail: seq<Document>, start: nat, middle: nat, now: nat)
    requires 0 < limit <= |visible|
    requires Delivered(h, ReachOf(links), Shows(view), cursor, visible, None, start, middle)
    requires Delivered(h, ReachOf(links), Shows(view), Some(visible[limit - 1].key), tail, None, middle, now)
    ensures var next := if tail == [] then None else Some(visible[limit - 1].key);
            && Delivered(h, ReachOf(links), Shows(view), cursor, visible[..limit], next, start, now)
            && (Fixed(h, start) ==> CatalogExact(h, links, view, limit, cursor, visible[..limit], next, start))
  {
    hide Delivered, CatalogExact, At, ReachOf;
    var reaches, p := ReachOf(links), Shows(view);
    var shown, last := visible[..limit], visible[limit - 1].key;
    assert start < middle < now by { DeliveredInTime(h, reaches, p, cursor, visible, None, start, middle);
                                     DeliveredInTime(h, reaches, p, Some(last), tail, None, middle, now); }
    DeliveredCut(h, reaches, p, cursor, visible, None, limit, start, middle);
    if tail == [] {
      DeliveredThen(h, reaches, p, cursor, shown, last, tail, None, start, middle, now);
      assert shown + tail == shown;
    } else {
      DeliveredWidens(h, reaches, p, cursor, shown, Some(last), start, middle, start, now);
    }
    if Fixed(h, start) {
      PeekedExactly(h, links, view, limit, cursor, visible, tail, start, middle, now);
    }
  }

  lemma PeekedExactly(h: History, links: seq<Link>, view: View, limit: nat, cursor: Cursor, visible: seq<Document>,
                      tail: seq<Document>, start: nat, middle: nat, now: nat)
    requires 0 < limit <= |visible| && start < middle && Fixed(h, start)
    requires Delivered(h, ReachOf(links), Shows(view), cursor, visible, None, start, middle)
    requires Delivered(h, ReachOf(links), Shows(view), cursor, visible[..limit], Some(visible[limit - 1].key), start, middle)
    requires Delivered(h, ReachOf(links), Shows(view), Some(visible[limit - 1].key), tail, None, middle, now)
    ensures CatalogExact(h, links, view, limit, cursor, visible[..limit], if tail == [] then None else Some(visible[limit - 1].key), start)
  {
    hide Delivered, ReachOf;
    var reaches, p := ReachOf(links), Shows(view);
    var shown, last := visible[..limit], visible[limit - 1].key;
    assert Fixed(h, middle) && At(h, middle) == At(h, start);
    DeliveredIsExact(h, reaches, p, cursor, visible, None, start, middle);
    DeliveredIsExact(h, reaches, p, cursor, shown, Some(last), start, middle);
    DeliveredIsExact(h, reaches, p, Some(last), tail, None, middle, now);
    assert shown + tail == visible;
    assert |shown + tail| == limit + |tail|;
  }

  lemma DeliveredInTime(h: History, reaches: set<Reach>, p: Family -> bool, from: Cursor, rows: seq<Document>,
                        next: Cursor, start: nat, now: nat)
    requires Delivered(h, reaches, p, from, rows, next, start, now)
    ensures start < now
  {
  }

  // ----- The client's walk -----

  /**
    A client's whole walk over the catalog view, while other users change anything but the keys: each
    document at most once, in key order, none that stayed visible in one of the caller's scopes left
    out. On a corpus nobody changes: exactly the visible documents, after max(1, ceil(n / limit))
    requests, so never a trailing empty page.
   */
  method WalkCatalog(h: History, links: seq<Link>, status: Option<set<Status>>, filename: Option<string>,
                     limit: nat, start: nat)
    returns (all: seq<Item>, requests: nat, shown: seq<Document>, now: nat)
    requires KeysAreImmutable(h) && limit > 0
    ensures forall i, j :: 0 <= i < j < |shown| ==>
              || shown[i].key.createdAt < shown[j].key.createdAt
              || (shown[i].key.createdAt == shown[j].key.createdAt && shown[i].key.id < shown[j].key.id)
    ensures |all| == |shown| && forall i :: 0 <= i < |all| ==>
              && Describes(status, shown[i], all[i])
              && (if status.Some? && status.value != {} then all[i].status in status.value else all[i].status in {Validated, NeedsReview})
    ensures forall d :: d in shown ==>
              && d.item.archivedAt == None && (links == [] || exists l :: l in links && l in d.item.scopes)
              && Qualifies(status, filename, d.item) && exists t :: start <= t < now && d in At(h, t)
    ensures forall via, key :: ThereThroughout(h, links, via, status, filename, start, now, key) ==> HasKey(shown, key)
    ensures Fixed(h, start) ==>
              && (forall d :: d in shown <==>
                    && d in At(h, start) && d.item.archivedAt == None && (links == [] || exists l :: l in links && l in d.item.scopes)
                    && Qualifies(status, filename, d.item))
              && requests == if |shown| == 0 then 1 else CeilDiv(|shown|, limit)
  {
    hide Delivered, KeysAreImmutable, IsHistory, Matches, Fixed, ReachOf, Keep, BuildCatalogItem, Listing, Seen, Stays,
         HasKey, ViewOf, Ascending, Before, Shows, RowsAhead, CatalogAnswers, CatalogExact, At, CeilDiv, Projects, Qualifies,
         Describes, ThereThroughout;
    var view := ViewOf(status, filename);
    all, requests, shown, now := [], 0, [], start;
    var cursor: Cursor := None;
    ghost var p, reaches := Shows(view), ReachOf(links);
    assert Projects(view, shown, all) by { NothingProjects(view); }
    while true
      invariant start <= now && (cursor == None ==> requests == 0 && shown == [] && now == start)
      invariant cursor.Some? ==> Delivered(h, reaches, p, None, shown, cursor, start, now)
      invariant Projects(view, shown, all)
      invariant Fixed(h, start) ==> |shown| == requests * limit
      invariant Fixed(h, start) && cursor.Some? ==> |Matches(At(h, now), reaches, p, cursor)| > 0
      decreases Changes(h, now), RowsAhead(h, reaches, cursor, |h|)
    {
      var items, next, page, t := GetKnowledgeCatalog(h, links, status, filename, limit, cursor, now);
      StepFacts(h, links, view, limit, cursor, items, page, next, start, now, t);
      if cursor.Some? {
        DeliveredThen(h, reaches, p, None, shown, cursor.value, page, next, start, now, t);
      } else {
        assert [] + page == page;
      }
      ProjectsThen(view, shown, all, page, items);
      if Fixed(h, start) {
        StepCounts(h, links, view, limit, cursor, page, next, start, now, t);
      }
      shown, all := shown + page, all + items;
      requests := requests + 1;
      now := t;
      if next.None? {
        if Fixed(h, start) {
          CatalogPageCount(requests, limit, |page|, |shown|);
        }
        break;
      }
      assert requests * limit == (requests - 1) * limit + limit;
      cursor := next;
    }
    ItemsMean(status, filename, shown, all);
    CatalogWalkMeans(h, links, status, filename, shown, start, now);
  }

  /** From call `start` to call `now` the document qualified and was active in one and the same scope of the caller. */
  ghost predicate ThereThroughout(h: History, links: seq<Link>, via: Option<Link>, status: Option<set<Status>>, filename: Option<string>,
                                  start: nat, now: nat, key: Key) {
    && (if via.None? then links == [] else via.value in links)
    && forall t :: start <= t < now ==> ThereVia(At(h, t), via, status, filename, key)
  }

  ghost predicate ThereVia(snapshot: seq<Document>, via: Option<Link>, status: Option<set<Status>>, filename: Option<string>, key: Key) {
    exists d :: d in snapshot && d.key == key && d.item.archivedAt == None && (via.Some? ==> via.value in d.item.scopes)
      && Qualifies(status, filename, d.item)
  }

  lemma ItemsMean(status: Option<set<Status>>, filename: Option<string>, shown: seq<Document>, items: seq<Item>)
    requires Projects(ViewOf(status, filename), shown, items)
    ensures |items| == |shown| && forall i :: 0 <= i < |items| ==>
              && Describes(status, shown[i], items[i])
              && (if status.Some? && status.value != {} then items[i].status in status.value else items[i].status in {Validated, NeedsReview})
  {
    hide ViewOf, BuildCatalogItem, Describes;
    forall i | 0 <= i < |items|
      ensures Describes(status, shown[i], items[i]) && Visible(status, items[i].status)
    {
      ItemMeans(status, filename, shown[i]);
    }
  }

  lemma SeenInCatalog(h: History, links: seq<Link>, status: Option<set<Status>>, filename: Option<string>, start: nat, now: nat, d: Document)
    requires Seen(h, ReachOf(links), Shows(ViewOf(status, filename)), start, now, d)
    ensures d.item.archivedAt == None && (links == [] || exists l :: l in links && l in d.item.scopes)
    ensures Qualifies(status, filename, d.item) && exists t :: start <= t < now && d in At(h, t)
  {
    hide ReachOf, ViewOf, ShowsFamily, Qualifies, At, Listing;
    var t :| start <= t < now && d in Listing(At(h, t), ReachOf(links));
    InListing(At(h, t), ReachOf(links), d);
    ReachMeans(links, d.item);
    ShowsMeans(status, filename, d);
  }

  lemma ListedInCatalog(snapshot: seq<Document>, links: seq<Link>, status: Option<set<Status>>, filename: Option<string>, d: Document)
    ensures d in Keep(Listing(snapshot, ReachOf(links)), Matching(Shows(ViewOf(status, filename)))) <==>
              && d in snapshot && d.item.archivedAt == None && (links == [] || exists l :: l in links && l in d.item.scopes)
              && Qualifies(status, filename, d.item)
  {
    hide ReachOf, ViewOf, ShowsFamily, Qualifies, Listing;
    InListing(snapshot, ReachOf(links), d);
    ReachMeans(links, d.item);
    ShowsMeans(status, filename, d);
  }

  lemma ThereStays(h: History, links: seq<Link>, via: Option<Link>, status: Option<set<Status>>, filename: Option<string>,
                   start: nat, now: nat, key: Key)
    requires ThereThroughout(h, links, via, status, filename, start, now, key)
    ensures Stays(h, ReachOf(links), Shows(ViewOf(status, filename)), start, now, key)
  {
    hide ViewOf, ShowsFamily, Qualifies, At, Listing, InReach;
    var p, reach := Shows(ViewOf(status, filename)), if via.None? then Everything else Scoped(via.value);
    forall t | start <= t < now
      ensures Present(Listing(At(h, t), {reach}), p, key)
    {
      assert ThereVia(At(h, t), via, status, filename, key);
      ViaIsPresent(At(h, t), via, status, filename, key);
    }
    assert reach in ReachOf(links) && StaysIn(h, reach, p, start, now, key);
  }

  lemma ViaIsPresent(snapshot: seq<Document>, via: Option<Link>, status: Option<set<Status>>, filename: Option<string>, key: Key)
    requires ThereVia(snapshot, via, status, filename, key)
    ensures Present(Listing(snapshot, {if via.None? then Everything else Scoped(via.value)}), Shows(ViewOf(status, filename)), key)
  {
    hide ViewOf, ShowsFamily, Qualifies, Listing;
    var reach := if via.None? then Everything else Scoped(via.value);
    var d :| d in snapshot && d.key == key && d.item.archivedAt == None && (via.Some? ==> via.value in d.item.scopes)
             && Qualifies(status, filename, d.item);
    assert reach in {reach} && Reaches(reach, d.item);
    InListing(snapshot, {reach}, d);
    ShowsMeans(status, filename, d);
    var listing := Listing(snapshot, {reach});
    assert d in listing;
    var i :| 0 <= i < |listing| && listing[i] == d;
  }

  lemma AnswerMeans(h: History, links: seq<Link>, status: Option<set<Status>>, filename: Option<string>, cursor: Cursor,
                    shown: seq<Document>, next: Cursor, start: nat, now: nat)
    requires Delivered(h, ReachOf(links), Shows(ViewOf(status, filename)), cursor, shown, next, start, now)
    ensures forall d :: d in shown ==>
              && d.item.archivedAt == None && (links == [] || exists l :: l in links && l in d.item.scopes)
              && Qualifies(status, filename, d.item) && exists t :: start <= t < now && d in At(h, t)
    ensures Fixed(h, start) ==> forall d :: d in shown <==>
              && d in At(h, start) && d.item.archivedAt == None && (links == [] || exists l :: l in links && l in d.item.scopes)
              && Qualifies(status, filename, d.item) && After(cursor, d.key) && UpTo(next, d.key)
  {
    hide Seen, Fixed, Listing, ViewOf, ShowsFamily, Qualifies, At, Complete, After, UpTo, ReachOf;
    forall d | d in shown
      ensures d.item.archivedAt == None && (links == [] || exists l :: l in links && l in d.item.scopes)
      ensures Qualifies(status, filename, d.item) && exists t :: start <= t < now && d in At(h, t)
    {
      var i :| 0 <= i < |shown| && shown[i] == d;
      assert Genuine(h, ReachOf(links), Shows(ViewOf(status, filename)), cursor, next, start, now, shown[i]);
      SeenInCatalog(h, links, status, filename, start, now, d);
    }
    if Fixed(h, start) {
      FixedAnswerMeans(h, links, status, filename, cursor, shown, next, start, now);
    }
  }

  lemma FixedAnswerMeans(h: History, links: seq<Link>, status: Option<set<Status>>, filename: Option<string>, cursor: Cursor,
                         shown: seq<Document>, next: Cursor, start: nat, now: nat)
    requires Fixed(h, start) && Delivered(h, ReachOf(links), Shows(ViewOf(status, filename)), cursor, shown, next, start, now)
    ensures forall d :: d in shown <==>
              && d in At(h, start) && d.item.archivedAt == None && (links == [] || exists l :: l in links && l in d.item.scopes)
              && Qualifies(status, filename, d.item) && After(cursor, d.key) && UpTo(next, d.key)
  {
    hide Delivered, Fixed, Listing, ViewOf, ShowsFamily, Qualifies, At, After, UpTo, ReachOf;
    DeliveredIsCut(h, ReachOf(links), Shows(ViewOf(status, filename)), cursor, shown, next, start, now);
    forall d: Document {
      ListedInCatalog(At(h, start), links, status, filename, d);
    }
  }

  lemma CatalogWalkMeans(h: History, links: seq<Link>, status: Option<set<Status>>, filename: Option<string>,
                         shown: seq<Document>, start: nat, now: nat)
    requires Delivered(h, ReachOf(links), Shows(ViewOf(status, filename)), None, shown, None, start, now)
    ensures forall i, j :: 0 <= i < j < |shown| ==>
              || shown[i].key.createdAt < shown[j].key.createdAt
              || (shown[i].key.createdAt == shown[j].key.createdAt && shown[i].key.id < shown[j].key.id)
    ensures forall d :: d in shown ==>
              && d.item.archivedAt == None && (links == [] || exists l :: l in links && l in d.item.scopes)
              && Qualifies(status, filename, d.item) && exists t :: start <= t < now && d in At(h, t)
    ensures forall via, key :: ThereThroughout(h, links, via, status, filename, start, now, key) ==> HasKey(shown, key)
    ensures Fixed(h, start) ==> forall d :: d in shown <==>
              && d in At(h, start) && d.item.archivedAt == None && (links == [] || exists l :: l in links && l in d.item.scopes)
              && Qualifies(status, filename, d.item)
  {
    hide Delivered, Fixed, Listing, ViewOf, ShowsFamily, Qualifies, At, ReachOf, Stays, HasKey, Seen, ThereThroughout;
    AnswerMeans(h, links, status, filename, None, shown, None, start, now);
    UnfoldCatalogWalk(h, links, ViewOf(status, filename), shown, start, now);
    forall via, key | ThereThroughout(h, links, via, status, filename, start, now, key)
      ensures HasKey(shown, key)
    {
      ThereStays(h, links, via, status, filename, start, now, key);
    }
  }

  lemma NothingProjects(view: View)
    ensures Projects(view, [], [])
  {
  }

  lemma OneProjects(view: View, d: Document, row: Item)
    requires BuildCatalogItem(view, d) == Some(row)
    ensures Projects(view, [d], [row])
  {
  }

  lemma ProjectsThen(view: View, a: seq<Document>, x: seq<Item>, b: seq<Document>, y: seq<Item>)
    requires Projects(view, a, x) && Projects(view, b, y)
    ensures Projects(view, a + b, x + y)
  {
    hide BuildCatalogItem;
    forall i | 0 <= i < |x + y|
      ensures BuildCatalogItem(view, (a + b)[i]) == Some((x + y)[i])
    {
      assert (a + b)[i] == if i < |a| then a[i] else b[i - |a|];
    }
  }

  lemma StepFacts(h: History, links: seq<Link>, view: View, limit: nat, cursor: Cursor, items: seq<Item>,
                  page: seq<Document>, next: Cursor, start: nat, now: nat, t: nat)
    requires CatalogAnswers(h, links, view, limit, cursor, items, page, next, now, t) && start <= now
    ensures now < t && Projects(view, page, items)
    ensures Delivered(h, ReachOf(links), Shows(view), cursor, page, next, now, t)
    ensures next.Some? && Changes(h, now) == 0 ==>
              RowsAhead(h, ReachOf(links), next, |h|) < RowsAhead(h, ReachOf(links), cursor, |h|)
  {
    if next.Some? && Changes(h, now) == 0 {
      DeliveryShrinks(h, ReachOf(links), Shows(view), cursor, page, next, now, t);
    }
  }

  lemma StepCounts(h: History, links: seq<Link>, view: View, limit: nat, cursor: Cursor, page: seq<Document>,
                   next: Cursor, start: nat, now: nat, t: nat)
    requires Fixed(h, start) && start <= now < t
    requires Fixed(h, now) ==> CatalogExact(h, links, view, limit, cursor, page, next, now)
    requires Delivered(h, ReachOf(links), Shows(view), cursor, page, next, now, t)
    ensures var left := |Matches(At(h, now), ReachOf(links), Shows(view), cursor)|;
            && |page| <= limit
            && (next.Some? ==> |page| == limit && |Matches(At(h, t), ReachOf(links), Shows(view), next)| > 0)
            && (next.None? && left > 0 && limit > 0 ==> |page| > 0)
  {
    hide Delivered, Matches;
    assert At(h, now) == At(h, start) && At(h, t) == At(h, start);
    FixedLater(h, start, now);
    var m := Matches(At(h, now), ReachOf(links), Shows(view), cursor);
    DeliveredIsExact(h, ReachOf(links), Shows(view), cursor, page, next, now, t);
    if next.Some? {
      var rest := Matches(At(h, now), ReachOf(links), Shows(view), next);
      assert |page + rest| == |page| + |rest|;
    }
  }

  lemma FixedLater(h: History, start: nat, now: nat)
    requires Fixed(h, start) && start <= now
    ensures Fixed(h, now)
  {
    assert At(h, now) == At(h, start);
  }

  lemma CatalogPageCount(requests: nat, limit: nat, last: nat, all: nat)
    requires 0 < requests && last <= limit && limit > 0 && all == (requests - 1) * limit + last
    requires requests == 1 || last > 0
    ensures requests == if all == 0 then 1 else CeilDiv(all, limit)
  {
    if all != 0 {
      var q := CeilDiv(all, limit);
      assert requests * limit == (requests - 1) * limit + limit;
      assert (q - 1) * limit == q * limit - limit;
      MulOrder(q - 1, requests, limit);
      MulOrder(requests - 1, q, limit);
      assert last > 0;
    }
  }

  lemma UnfoldCatalogWalk(h: History, links: seq<Link>, view: View, shown: seq<Document>, start: nat, now: nat)
    requires Delivered(h, ReachOf(links), Shows(view), None, shown, None, start, now)
    ensures forall i, j :: 0 <= i < j < |shown| ==> Before(shown[i].key, shown[j].key)
    ensures forall i :: 0 <= i < |shown| ==> Seen(h, ReachOf(links), Shows(view), start, now, shown[i])
    ensures forall key :: Stays(h, ReachOf(links), Shows(view), start, now, key) ==> HasKey(shown, key)
    ensures Fixed(h, start) ==> shown == Keep(Listing(At(h, start), ReachOf(links)), Matching(Shows(view)))
  {
    hide ReachOf, Shows;
    UnfoldDelivered(h, ReachOf(links), Shows(view), shown, start, now);
  }
}
