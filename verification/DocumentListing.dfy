/**
  `GET /documents` for a caller with one scope: store pages filtered in memory, walked forward until
  the page fills, and the client's walk over all pages while other users change the catalog.
 */
module DocumentListing {
  import opened Wrappers
  import opened Keyset
  import opened Lifecycle
  import opened Catalog

  datatype Filters = Filters(statuses: Option<set<Status>>, filename: Option<string>)

  function Lower(s: string): string {
    seq(|s|, i requires 0 <= i < |s| => if 'A' <= s[i] <= 'Z' then s[i] - 'A' + 'a' else s[i])
  }

  predicate OccursAt(text: string, needle: string, i: nat) {
    i + |needle| <= |text| && text[i..i + |needle|] == needle
  }

  predicate Contains(text: string, needle: string) {
    exists i :: 0 <= i <= |text| && OccursAt(text, needle, i)
  }

  function VersionOr(versions: seq<Version>, id: int, default: Version): Version {
    if versions == [] then default
    else if versions[0].id == id then versions[0]
    else VersionOr(versions[1..], id, default)
  }

  predicate MatchesFilters(f: Filters, family: Family) {
    && (f.filename.Some? ==> Contains(Lower(family.filename), Lower(f.filename.value)))
    && (f.statuses.Some? ==>
          && family.versions != []
          && VersionOr(family.versions, family.latestVersionId, family.versions[|family.versions| - 1]).status
             in f.statuses.value)
  }

  /** Equal letters, upper or lower case. */
  predicate SameLetter(a: char, b: char) {
    || a == b
    || ('A' <= a <= 'Z' && b as int == a as int + 32) || ('A' <= b <= 'Z' && a as int == b as int + 32)
  }

  /** `needle` stands in the text from position i on, whatever the case of its letters. */
  predicate StandsAt(text: string, needle: string, i: nat) {
    i + |needle| <= |text| && forall k :: 0 <= k < |needle| ==> SameLetter(text[i + k], needle[k])
  }

  /** Version j is the one `latest_version_id` names; if it names none, the last one. */
  predicate IsLatestOf(family: Family, j: nat) {
    && j < |family.versions|
    && if exists k :: 0 <= k < |family.versions| && family.versions[k].id == family.latestVersionId
       then family.versions[j].id == family.latestVersionId && forall k :: 0 <= k < j ==> family.versions[k].id != family.latestVersionId
       else j == |family.versions| - 1
  }

  /** What the two filters select: names that contain the text, ignoring case, and families whose latest version has such a status. */
  lemma FiltersMean(f: Filters, family: Family)
    ensures MatchesFilters(f, family) <==>
              && (f.filename.None? || exists i :: 0 <= i <= |family.filename| && StandsAt(family.filename, f.filename.value, i))
              && (f.statuses.None? || exists j: nat :: IsLatestOf(family, j) && family.versions[j].status in f.statuses.value)
  {
    if f.filename.Some? {
      ContainsMeans(family.filename, f.filename.value);
    }
    if family.versions != [] {
      var j := LatestIs(family);
    }
  }

  lemma LatestIs(family: Family) returns (j: nat)
    requires family.versions != []
    ensures IsLatestOf(family, j) && forall k: nat :: IsLatestOf(family, k) ==> k == j
    ensures VersionOr(family.versions, family.latestVersionId, family.versions[|family.versions| - 1]) == family.versions[j]
  {
    j := LatestAt(family.versions, family.latestVersionId);
  }

  lemma ContainsMeans(text: string, needle: string)
    ensures Contains(Lower(text), Lower(needle)) <==> exists i :: 0 <= i <= |text| && StandsAt(text, needle, i)
  {
    forall i: nat | i <= |text|
      ensures OccursAt(Lower(text), Lower(needle), i) <==> StandsAt(text, needle, i)
    {
      OccursMeans(text, needle, i);
    }
  }

  lemma OccursMeans(text: string, needle: string, i: nat)
    ensures OccursAt(Lower(text), Lower(needle), i) <==> StandsAt(text, needle, i)
  {
    if i + |needle| <= |text| {
      var part := Lower(text)[i..i + |needle|];
      forall k | 0 <= k < |needle|
        ensures part[k] == Lower(needle)[k] <==> SameLetter(text[i + k], needle[k])
      {
      }
      if StandsAt(text, needle, i) {
        assert forall k :: 0 <= k < |needle| ==> part[k] == Lower(needle)[k];
        assert part == Lower(needle);
      }
    }
  }

  lemma {:induction false} LatestAt(versions: seq<Version>, id: int) returns (j: nat)
    requires versions != []
    ensures j < |versions| && VersionOr(versions, id, versions[|versions| - 1]) == versions[j]
    ensures if exists k :: 0 <= k < |versions| && versions[k].id == id
            then versions[j].id == id && forall k :: 0 <= k < j ==> versions[k].id != id
            else j == |versions| - 1
  {
    if versions[0].id == id || |versions| == 1 {
      j := 0;
    } else {
      var rest := versions[1..];
      var k := LatestAt(rest, id);
      j := k + 1;
      assert forall m :: 0 < m < |versions| ==> versions[m] == rest[m - 1];
    }
  }

  function Selects(f: Filters): Family -> bool {
    (family: Family) => MatchesFilters(f, family)
  }

  /** What one request promises: a delivery of at most `limit` rows, with a cursor iff it is full. */
  ghost predicate Answers(h: History, link: Link, f: Filters, limit: nat, cursor: Cursor, page: seq<Document>,
                          next: Cursor, start: nat, now: nat) {
    && |page| <= limit
    && next == (if |page| < limit || page == [] then None else Some(LastKey(page)))
    && Delivered(h, {Scoped(link)}, Selects(f), cursor, page, next, start, now)
  }

  /** How many rows of the scope lie after the cursor. */
  function RowsLeft(h: History, link: Link, cursor: Cursor, t: nat): nat {
    RowsAhead(h, {Scoped(link)}, cursor, t)
  }

  /** They are the active documents of the scope beyond the cursor. */
  lemma RowsLeftCounts(h: History, link: Link, cursor: Cursor, t: nat)
    ensures RowsLeft(h, link, cursor, t)
         == |set d | d in At(h, t) && d.item.archivedAt == None && link in d.item.scopes && After(cursor, d.key)|
  {
    hide At, After;
    var rows := RowsAfter(Listing(At(h, t), {Scoped(link)}), cursor);
    ListingAtAscends(h, Scoped(link), t);
    AfterAscends(Listing(At(h, t), {Scoped(link)}), cursor);
    AscendingCounts(rows);
    forall d: Document
      ensures d in rows <==> d in At(h, t) && d.item.archivedAt == None && link in d.item.scopes && After(cursor, d.key)
    {
      InListing(At(h, t), {Scoped(link)}, d);
      assert Scoped(link) in {Scoped(link)} && (Reaches(Scoped(link), d.item) <==> d.item.archivedAt == None && link in d.item.scopes);
    }
    assert (set d | d in rows) == set d | d in At(h, t) && d.item.archivedAt == None && link in d.item.scopes && After(cursor, d.key);
  }

  lemma {:induction false} AscendingCounts(rows: seq<Document>)
    requires Ascending(rows)
    ensures |set d | d in rows| == |rows|
  {
    if rows != [] {
      var last, front := rows[|rows| - 1], rows[..|rows| - 1];
      AscendingCounts(front);
      assert (set d | d in rows) == (set d | d in front) + {last};
      assert last !in front;
    }
  }

  /** After `pages` non-empty store pages of a corpus with n rows, `left` rows remain unread. */
  predicate ReadSoFar(n: nat, limit: nat, pages: nat, left: nat) {
    pages > 0 && (pages - 1) * limit < n && left == (if n < pages * limit then 0 else n - pages * limit)
  }

  lemma ReadOn(n: nat, limit: nat, pages: nat, left: nat, page: nat)
    requires limit > 0 && left > 0 && page == (if left <= limit then left else limit)
    requires ReadSoFar(n, limit, pages, left) || (pages == 0 && left == n)
    ensures ReadSoFar(n, limit, pages + 1, left - page)
  {
    assert (pages + 1) * limit == pages * limit + limit;
  }

  /** The rows of one more page that match, as far as the response has room for them. */
  method AppendMatches(before: seq<Document>, page: seq<Document>, limit: nat, f: Filters) returns (matches: seq<Document>)
    requires |before| < limit
    ensures matches == Take(before + Keep(page, Matching(Selects(f))), limit)
  {
    hide Keep, MatchesFilters;
    ghost var p, kept: seq<Document> := Matching(Selects(f)), [];
    matches := before;
    for i := 0 to |page|
      invariant matches == before + kept && |matches| < limit && kept + Keep(page[i..], p) == Keep(page, p)
    {
      KeepStep(page, i, p, kept);
      if MatchesFilters(f, page[i].item) {
        matches, kept := matches + [page[i]], kept + [page[i]];
        if |matches| >= limit {
          assert (before + Keep(page, p))[..limit] == matches;
          return;
        }
      }
    }
    assert Keep(page[|page|..], p) == [];
  }

  /** The walk's state between two store calls: `page` is the last page read, `found` all matches so far. */
  ghost predicate Walking(h: History, link: Link, f: Filters, limit: nat, seed: Cursor, page: seq<Document>,
                          found: seq<Document>, start: nat, now: nat) {
    && start < now && limit > 0
    && var next := if page == [] then None else Some(LastKey(page));
       && (next.Some? ==> NotPast(seed, next))
       && Delivered(h, {Scoped(link)}, Selects(f), seed, found, next, start, now)
       && (Fixed(h, start) ==>
             && now - start <= CeilDiv(RowsLeft(h, link, seed, start), limit) + 1
             && (next.Some? ==> ReadSoFar(RowsLeft(h, link, seed, start), limit, now - start, RowsLeft(h, link, next, start))))
  }

  method FilterScopedPage(h: History, link: Link, first: seq<Document>, limit: nat, f: Filters, seed: Cursor, start: nat)
    returns (matches: seq<Document>, now: nat)
    requires limit > 0 && first == ListInScope(At(h, start), link, seed, limit).0
    ensures Answers(h, link, f, limit, seed, matches,
                    if |matches| < limit then None else Some(LastKey(matches)), start, now)
    ensures Fixed(h, start) ==> now - start <= CeilDiv(RowsLeft(h, link, seed, start), limit) + 1
  {
    hide Delivered, RowsLeft, ListInScope, Fixed, IsHistory, Keep, Walking;
    matches := Keep(first, Matching(Selects(f)));
    ghost var found := matches;
    now := start + 1;
    FirstPage(h, link, f, limit, seed, start);
    var page := first;
    while |matches| < limit
      invariant Walking(h, link, f, limit, seed, page, found, start, now) && matches == Take(found, limit)
      decreases Changes(h, now), if page == [] then 0 else RowsLeft(h, link, Some(LastKey(page)), |h|)
    {
      if page == [] {
        break;
      }
      var walk := LastKey(page);
      NextPage(h, link, f, limit, seed, page, found, start, now);
      page := ListInScope(At(h, now), link, Some(walk), limit).0;
      now := now + 1;
      found := found + Keep(page, Matching(Selects(f)));
      if page == [] {
        assert found == matches;
        break;
      }
      matches := AppendMatches(matches, page, limit, f);
    }
    WalkingMeans(h, link, f, limit, seed, page, found, start, now);
    if |matches| == limit {
      DeliveredCut(h, {Scoped(link)}, Selects(f), seed, found, if page == [] then None else Some(LastKey(page)), limit, start, now);
      assert matches == found[..limit];
    }
  }

  lemma FirstPage(h: History, link: Link, f: Filters, limit: nat, seed: Cursor, start: nat)
    requires limit > 0
    ensures var page := ListInScope(At(h, start), link, seed, limit).0;
            && |page| <= limit
            && Walking(h, link, f, limit, seed, page, Keep(page, Matching(Selects(f))), start, start + 1)
  {
    hide Delivered, Listing, At, Keep, Ascending;
    var page := ListInScope(At(h, start), link, seed, limit).0;
    ListingAtAscends(h, Scoped(link), start);
    FetchSplits(Listing(At(h, start), {Scoped(link)}), seed, limit);
    if page == [] {
      LastPageDelivers(h, Scoped(link), Selects(f), seed, limit, start);
    } else {
      PageDelivers(h, Scoped(link), Selects(f), seed, limit, start);
      ReadOn(RowsLeft(h, link, seed, start), limit, 0, RowsLeft(h, link, seed, start), |page|);
    }
  }

  lemma WalkingMeans(h: History, link: Link, f: Filters, limit: nat, seed: Cursor, page: seq<Document>,
                     found: seq<Document>, start: nat, now: nat)
    requires Walking(h, link, f, limit, seed, page, found, start, now)
    ensures start < now && limit > 0
    ensures Delivered(h, {Scoped(link)}, Selects(f), seed, found, if page == [] then None else Some(LastKey(page)), start, now)
    ensures Fixed(h, start) ==> now - start <= CeilDiv(RowsLeft(h, link, seed, start), limit) + 1
  {
    hide Delivered, RowsLeft, Fixed;
  }

  /** One more store call: the walk goes on, and on the last snapshot it comes closer to its end. */
  lemma NextPage(h: History, link: Link, f: Filters, limit: nat, seed: Cursor, last: seq<Document>, found: seq<Document>,
                 start: nat, now: nat)
    requires last != [] && Walking(h, link, f, limit, seed, last, found, start, now)
    ensures var page := ListInScope(At(h, now), link, Some(LastKey(last)), limit).0;
            && Walking(h, link, f, limit, seed, page, found + Keep(page, Matching(Selects(f))), start, now + 1)
            && (page != [] && Changes(h, now) == 0 ==>
                  RowsLeft(h, link, Some(LastKey(page)), |h|) < RowsLeft(h, link, Some(LastKey(last)), |h|))
  {
    hide Delivered, RowsLeft, ListInScope, Keep, IsHistory, ReadSoFar;
    var walk := LastKey(last);
    var page := ListInScope(At(h, now), link, Some(walk), limit).0;
    NextShrinks(h, link, limit, walk, now);
    NextDelivers(h, link, f, limit, seed, walk, found, start, now);
    if Fixed(h, start) {
      assert At(h, now) == At(h, start);
      RowsLeftNow(h, link, Some(walk), start, now);
      RowsLeftNow(h, link, if page == [] then None else Some(LastKey(page)), start, now);
      NextRead(RowsLeft(h, link, seed, start), limit, now - start, RowsLeft(h, link, Some(walk), start), |page|);
    }
    if Changes(h, now) == 0 {
      RowsLeftNow(h, link, Some(walk), |h|, now);
      RowsLeftNow(h, link, if page == [] then None else Some(LastKey(page)), |h|, now);
    }
  }

  lemma RowsLeftNow(h: History, link: Link, cursor: Cursor, s: nat, t: nat)
    requires At(h, s) == At(h, t)
    ensures RowsLeft(h, link, cursor, s) == RowsLeft(h, link, cursor, t)
  {
  }

  lemma NextShrinks(h: History, link: Link, limit: nat, walk: Key, now: nat)
    requires limit > 0
    ensures var page := ListInScope(At(h, now), link, Some(walk), limit).0;
            var left := RowsLeft(h, link, Some(walk), now);
            && |page| == (if left <= limit then left else limit)
            && (page != [] ==>
                  && NotPast(Some(walk), Some(LastKey(page)))
                  && RowsLeft(h, link, Some(LastKey(page)), now) == left - |page|)
  {
    ListingAscends(At(h, now), {Scoped(link)});
    FetchSplits(Listing(At(h, now), {Scoped(link)}), Some(walk), limit);
  }

  lemma NextDelivers(h: History, link: Link, f: Filters, limit: nat, seed: Cursor, walk: Key, found: seq<Document>,
                     start: nat, now: nat)
    requires limit > 0 && Delivered(h, {Scoped(link)}, Selects(f), seed, found, Some(walk), start, now)
    ensures var page := ListInScope(At(h, now), link, Some(walk), limit).0;
            Delivered(h, {Scoped(link)}, Selects(f), seed, found + Keep(page, Matching(Selects(f))),
                      if page == [] then None else Some(LastKey(page)), start, now + 1)
  {
    hide Delivered;
    var page := ListInScope(At(h, now), link, Some(walk), limit).0;
    if page == [] {
      LastPageDelivers(h, Scoped(link), Selects(f), Some(walk), limit, now);
    } else {
      PageDelivers(h, Scoped(link), Selects(f), Some(walk), limit, now);
    }
    DeliveredThen(h, {Scoped(link)}, Selects(f), seed, found, walk, Keep(page, Matching(Selects(f))),
                  if page == [] then None else Some(LastKey(page)), start, now, now + 1);
  }

  lemma NextRead(n: nat, limit: nat, pages: nat, left: nat, page: nat)
    requires limit > 0 && ReadSoFar(n, limit, pages, left) && page == (if left <= limit then left else limit)
    ensures pages + 1 <= CeilDiv(n, limit) + 1
    ensures page > 0 ==> ReadSoFar(n, limit, pages + 1, left - page)
  {
    MulOrder(pages - 1, CeilDiv(n, limit), limit);
    if page > 0 {
      ReadOn(n, limit, pages, left, page);
    }
  }

  /** One `GET /documents` request of a caller with a single scope. */
  method ListDocumentsWithScope(h: History, link: Link, limit: nat, cursor: Cursor, f: Filters, start: nat)
    returns (page: seq<Document>, next: Cursor, now: nat)
    requires limit > 0
    ensures Answers(h, link, f, limit, cursor, page, next, start, now)
    ensures forall d :: d in page ==>
              && d.item.archivedAt == None && link in d.item.scopes && MatchesFilters(f, d.item)
              && exists t :: start <= t < now && d in At(h, t)
    ensures Fixed(h, start) ==> forall d :: d in page <==>
              && d in At(h, start) && d.item.archivedAt == None && link in d.item.scopes && MatchesFilters(f, d.item)
              && After(cursor, d.key) && UpTo(next, d.key)
    ensures Fixed(h, start) ==> now - start <= CeilDiv(RowsLeft(h, link, cursor, start), limit) + 1
  {
    hide Delivered, RowsLeft, Fixed, IsHistory, MatchesFilters, After, UpTo;
    page := ListInScope(At(h, start), link, cursor, limit).0;
    now := start + 1;
    if f.statuses.Some? || f.filename.Some? {
      page, now := FilterScopedPage(h, link, page, limit, f, cursor, start);
    } else {
      UnfilteredPage(h, link, f, limit, cursor, start);
    }
    next := if |page| < limit then None else Some(LastKey(page));
    PageMeans(h, link, f, cursor, page, next, start, now);
  }

  lemma UnfilteredPage(h: History, link: Link, f: Filters, limit: nat, cursor: Cursor, start: nat)
    requires limit > 0 && f.statuses.None? && f.filename.None?
    ensures var page := ListInScope(At(h, start), link, cursor, limit).0;
            Answers(h, link, f, limit, cursor, page, if |page| < limit then None else Some(LastKey(page)), start, start + 1)
  {
    hide Delivered;
    var page := ListInScope(At(h, start), link, cursor, limit).0;
    KeepAll(page, Matching(Selects(f)));
    ListingAscends(At(h, start), {Scoped(link)});
    FetchSplits(Listing(At(h, start), {Scoped(link)}), cursor, limit);
    if |page| < limit {
      LastPageDelivers(h, Scoped(link), Selects(f), cursor, limit, start);
    } else {
      PageDelivers(h, Scoped(link), Selects(f), cursor, limit, start);
    }
  }

  /**
    A client's whole walk: request after request until no cursor comes back, while between any two
    store calls other users add, remove, archive, relink or change documents. Keys strictly increase,
    every row really matched when it was read, and every document that stays in scope and keeps
    matching from the first store call to the last is returned once. On a corpus nobody changes the
    pages are the filtered scope in order, after exactly floor(n / limit) + 1 requests.
   */
  method WalkDocuments(h: History, link: Link, limit: nat, f: Filters, start: nat)
    returns (all: seq<Document>, requests: nat, now: nat)
    requires limit > 0
    ensures forall i, j :: 0 <= i < j < |all| ==>
              || all[i].key.createdAt < all[j].key.createdAt
              || (all[i].key.createdAt == all[j].key.createdAt && all[i].key.id < all[j].key.id)
    ensures forall d :: d in all ==>
              && d.item.archivedAt == None && link in d.item.scopes && MatchesFilters(f, d.item)
              && exists t :: start <= t < now && d in At(h, t)
    ensures forall key :: (forall t :: start <= t < now ==> ThereInScope(At(h, t), link, f, key)) ==> HasKey(all, key)
    ensures Fixed(h, start) ==>
              && (forall d :: d in all <==>
                    d in At(h, start) && d.item.archivedAt == None && link in d.item.scopes && MatchesFilters(f, d.item))
              && requests == |all| / limit + 1
  {
    hide Delivered, RowsLeft, Keep, IsHistory, Listing, Seen, Stays, Fixed, HasKey, ListInScope, Answers, Ascending, Before, At,
         MatchesFilters, ThereInScope, After, UpTo, CeilDiv;
    all, requests, now := [], 0, start;
    var cursor: Cursor := None;
    ghost var p, reaches := Selects(f), {Scoped(link)};
    while true
      invariant start <= now && (cursor == None ==> requests == 0 && all == [] && now == start)
      invariant cursor.Some? ==> Delivered(h, reaches, p, None, all, cursor, start, now)
      invariant |all| == requests * limit
      decreases Changes(h, now), RowsLeft(h, link, cursor, |h|)
    {
      var page, next, t := ListDocumentsWithScope(h, link, limit, cursor, f, now);
      WalkShrinks(h, link, f, limit, cursor, page, next, now, t);
      if cursor.Some? {
        DeliveredThen(h, reaches, p, None, all, cursor.value, page, next, start, now, t);
      } else {
        assert [] + page == page;
      }
      all := all + page;
      requests := requests + 1;
      now := t;
      if next.None? {
        PageCount(requests, limit, |page|, |all|);
        break;
      }
      assert requests * limit == (requests - 1) * limit + limit;
      cursor := next;
    }
    WalkMeans(h, link, f, all, start, now);
  }

  /** The snapshot has the document with this key, active, in the scope and matching the filters. */
  ghost predicate ThereInScope(snapshot: seq<Document>, link: Link, f: Filters, key: Key) {
    exists d :: d in snapshot && d.key == key && d.item.archivedAt == None && link in d.item.scopes && MatchesFilters(f, d.item)
  }

  lemma SeenMeans(h: History, link: Link, f: Filters, start: nat, now: nat, d: Document)
    requires Seen(h, {Scoped(link)}, Selects(f), start, now, d)
    ensures d.item.archivedAt == None && link in d.item.scopes && MatchesFilters(f, d.item)
    ensures exists t :: start <= t < now && d in At(h, t)
  {
    hide MatchesFilters, At;
    var t :| start <= t < now && d in Listing(At(h, t), {Scoped(link)});
    InListing(At(h, t), {Scoped(link)}, d);
  }

  lemma ListedMeans(snapshot: seq<Document>, link: Link, f: Filters, d: Document)
    ensures d in Keep(Listing(snapshot, {Scoped(link)}), Matching(Selects(f))) <==>
              d in snapshot && d.item.archivedAt == None && link in d.item.scopes && MatchesFilters(f, d.item)
  {
    hide MatchesFilters;
    InListing(snapshot, {Scoped(link)}, d);
    assert Scoped(link) in {Scoped(link)} && (Reaches(Scoped(link), d.item) <==> d.item.archivedAt == None && link in d.item.scopes);
  }

  lemma ThereMeansStays(h: History, link: Link, f: Filters, start: nat, now: nat, key: Key)
    requires forall t :: start <= t < now ==> ThereInScope(At(h, t), link, f, key)
    ensures Stays(h, {Scoped(link)}, Selects(f), start, now, key)
  {
    hide MatchesFilters, At, Listing;
    forall t | start <= t < now
      ensures Present(Listing(At(h, t), {Scoped(link)}), Selects(f), key)
    {
      assert ThereInScope(At(h, t), link, f, key);
      var d :| d in At(h, t) && d.key == key && d.item.archivedAt == None && link in d.item.scopes && MatchesFilters(f, d.item);
      ListedMeans(At(h, t), link, f, d);
      var listing := Listing(At(h, t), {Scoped(link)});
      assert d in listing;
      var i :| 0 <= i < |listing| && listing[i] == d;
    }
    assert Scoped(link) in {Scoped(link)} && StaysIn(h, Scoped(link), Selects(f), start, now, key);
  }

  lemma WalkMeans(h: History, link: Link, f: Filters, all: seq<Document>, start: nat, now: nat)
    requires Delivered(h, {Scoped(link)}, Selects(f), None, all, None, start, now)
    ensures forall i, j :: 0 <= i < j < |all| ==>
              || all[i].key.createdAt < all[j].key.createdAt
              || (all[i].key.createdAt == all[j].key.createdAt && all[i].key.id < all[j].key.id)
    ensures forall d :: d in all ==>
              && d.item.archivedAt == None && link in d.item.scopes && MatchesFilters(f, d.item)
              && exists t :: start <= t < now && d in At(h, t)
    ensures forall key :: (forall t :: start <= t < now ==> ThereInScope(At(h, t), link, f, key)) ==> HasKey(all, key)
    ensures Fixed(h, start) ==> forall d :: d in all <==>
              d in At(h, start) && d.item.archivedAt == None && link in d.item.scopes && MatchesFilters(f, d.item)
  {
    hide Delivered, Seen, Stays, Fixed, Listing, Keep, MatchesFilters, At, ThereInScope, HasKey;
    UnfoldDelivered(h, {Scoped(link)}, Selects(f), all, start, now);
    forall d | d in all
      ensures d.item.archivedAt == None && link in d.item.scopes && MatchesFilters(f, d.item)
      ensures exists t :: start <= t < now && d in At(h, t)
    {
      SeenMeans(h, link, f, start, now, d);
    }
    forall key
      ensures (forall t :: start <= t < now ==> ThereInScope(At(h, t), link, f, key)) ==> HasKey(all, key)
    {
      if forall t :: start <= t < now ==> ThereInScope(At(h, t), link, f, key) {
        ThereMeansStays(h, link, f, start, now, key);
      }
    }
    if Fixed(h, start) {
      forall d: Document {
        ListedMeans(At(h, start), link, f, d);
      }
    }
  }

  lemma PageMeans(h: History, link: Link, f: Filters, cursor: Cursor, page: seq<Document>, next: Cursor, start: nat, now: nat)
    requires Delivered(h, {Scoped(link)}, Selects(f), cursor, page, next, start, now)
    ensures forall d :: d in page ==>
              && d.item.archivedAt == None && link in d.item.scopes && MatchesFilters(f, d.item)
              && exists t :: start <= t < now && d in At(h, t)
    ensures Fixed(h, start) ==> forall d :: d in page <==>
              && d in At(h, start) && d.item.archivedAt == None && link in d.item.scopes && MatchesFilters(f, d.item)
              && After(cursor, d.key) && UpTo(next, d.key)
  {
    hide Seen, Fixed, Listing, MatchesFilters, At, Complete, After, UpTo;
    forall d | d in page
      ensures d.item.archivedAt == None && link in d.item.scopes && MatchesFilters(f, d.item)
      ensures exists t :: start <= t < now && d in At(h, t)
    {
      var i :| 0 <= i < |page| && page[i] == d;
      assert Genuine(h, {Scoped(link)}, Selects(f), cursor, next, start, now, page[i]);
      SeenMeans(h, link, f, start, now, d);
    }
    if Fixed(h, start) {
      FixedPageMeans(h, link, f, cursor, page, next, start, now);
    }
  }

  lemma FixedPageMeans(h: History, link: Link, f: Filters, cursor: Cursor, page: seq<Document>, next: Cursor, start: nat, now: nat)
    requires Fixed(h, start) && Delivered(h, {Scoped(link)}, Selects(f), cursor, page, next, start, now)
    ensures forall d :: d in page <==>
              && d in At(h, start) && d.item.archivedAt == None && link in d.item.scopes && MatchesFilters(f, d.item)
              && After(cursor, d.key) && UpTo(next, d.key)
  {
    hide Delivered, Fixed, Listing, MatchesFilters, At, After, UpTo;
    DeliveredIsCut(h, {Scoped(link)}, Selects(f), cursor, page, next, start, now);
    forall d: Document {
      ListedMeans(At(h, start), link, f, d);
    }
  }

  lemma PageCount(requests: nat, limit: nat, last: nat, all: nat)
    requires 0 < requests && last < limit && all == (requests - 1) * limit + last
    ensures requests == all / limit + 1
  {
    var q := all / limit;
    assert all == q * limit + all % limit;
    MulOrder(requests - 1, q + 1, limit);
    MulOrder(q, requests, limit);
    assert (q + 1) * limit == q * limit + limit;
    assert requests * limit == (requests - 1) * limit + limit;
  }

  lemma WalkShrinks(h: History, link: Link, f: Filters, limit: nat, cursor: Cursor, page: seq<Document>, next: Cursor,
                    now: nat, t: nat)
    requires Answers(h, link, f, limit, cursor, page, next, now, t)
    ensures Delivered(h, {Scoped(link)}, Selects(f), cursor, page, next, now, t)
    ensures next.Some? && Changes(h, now) == 0 ==> RowsLeft(h, link, next, |h|) < RowsLeft(h, link, cursor, |h|)
    ensures now < t && (next.Some? ==> |page| == limit) && (next.None? ==> |page| < limit || limit == 0)
  {
    if next.Some? && Changes(h, now) == 0 {
      DeliveryShrinks(h, {Scoped(link)}, Selects(f), cursor, page, next, now, t);
    }
  }
}
