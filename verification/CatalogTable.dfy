/**
  The catalog as a table of documents: rows and versions found by their ids, and loops that list some documents and then
  rewrite each of them once.
 */
module CatalogTable {
  import opened Wrappers
  import opened Keyset
  import opened Catalog

  function Find(rows: seq<Document>, id: int): (r: Option<nat>)
    ensures r.Some? ==> r.value < |rows| && rows[r.value].key.id == id
    ensures r.None? ==> forall i :: 0 <= i < |rows| ==> rows[i].key.id != id
  {
    FindAmong(rows, id, |rows|)
  }

  function FindAmong(rows: seq<Document>, id: int, n: nat): (r: Option<nat>)
    requires n <= |rows|
    ensures r.Some? ==> r.value < n && rows[r.value].key.id == id
    ensures r.None? ==> forall i :: 0 <= i < n ==> rows[i].key.id != id
  {
    if n == 0 then None
    else if rows[n - 1].key.id == id then Some(n - 1)
    else FindAmong(rows, id, n - 1)
  }

  function VersionIndex(versions: seq<Version>, id: int): (r: Option<nat>)
    ensures r.Some? ==> r.value < |versions| && versions[r.value].id == id
    ensures r.None? ==> forall i :: 0 <= i < |versions| ==> versions[i].id != id
  {
    VersionIndexFrom(versions, id, 0)
  }

  function VersionIndexFrom(versions: seq<Version>, id: int, n: nat): (r: Option<nat>)
    requires n <= |versions|
    ensures r.Some? ==> n <= r.value < |versions| && versions[r.value].id == id
    ensures r.None? ==> forall i :: n <= i < |versions| ==> versions[i].id != id
    decreases |versions| - n
  {
    if n == |versions| then None
    else if versions[n].id == id then Some(n)
    else VersionIndexFrom(versions, id, n + 1)
  }

  /** Version ids are unique: each version is found under its own id. */
  predicate DistinctVersions(versions: seq<Version>) {
    forall j :: 0 <= j < |versions| ==> VersionIndex(versions, versions[j].id) == Some(j)
  }

  /** So are document ids. */
  predicate WellFormed(rows: seq<Document>) {
    forall i :: 0 <= i < |rows| ==> Find(rows, rows[i].key.id) == Some(i) && DistinctVersions(rows[i].item.versions)
  }

  lemma {:induction false} FindById(a: seq<Document>, b: seq<Document>, id: int, n: nat)
    requires n <= |a| == |b| && forall i :: 0 <= i < |a| ==> a[i].key.id == b[i].key.id
    ensures FindAmong(a, id, n) == FindAmong(b, id, n)
  {
    if n > 0 {
      FindById(a, b, id, n - 1);
    }
  }

  lemma {:induction false} VersionIndexById(a: seq<Version>, b: seq<Version>, id: int, n: nat)
    requires n <= |a| == |b| && forall i :: 0 <= i < |a| ==> a[i].id == b[i].id
    ensures VersionIndexFrom(a, id, n) == VersionIndexFrom(b, id, n)
    decreases |a| - n
  {
    if n < |a| {
      VersionIndexById(a, b, id, n + 1);
    }
  }

  lemma DistinctById(a: seq<Version>, b: seq<Version>)
    requires |a| == |b| && DistinctVersions(b) && forall i :: 0 <= i < |a| ==> a[i].id == b[i].id
    ensures DistinctVersions(a)
  {
    forall j | 0 <= j < |a|
      ensures VersionIndex(a, a[j].id) == Some(j)
    {
      assert VersionIndex(b, b[j].id) == Some(j);
      VersionIndexById(a, b, a[j].id, 0);
    }
  }

  /** Writes that keep the ids keep the table well-formed and every row where it was. */
  lemma WellFormedById(a: seq<Document>, b: seq<Document>)
    requires |a| == |b| && WellFormed(b)
    requires forall i :: 0 <= i < |a| ==> a[i].key.id == b[i].key.id && DistinctVersions(a[i].item.versions)
    ensures WellFormed(a) && forall id :: Find(a, id) == Find(b, id)
  {
    forall id
      ensures Find(a, id) == Find(b, id)
    {
      FindById(a, b, id, |a|);
    }
    forall i | 0 <= i < |a|
      ensures Find(a, a[i].key.id) == Some(i)
    {
      assert Find(b, b[i].key.id) == Some(i);
    }
  }

  lemma WellFormedDistinct(rows: seq<Document>)
    requires WellFormed(rows)
    ensures DistinctIds(rows)
  {
    forall i, j | 0 <= i < j < |rows|
      ensures rows[i].key.id != rows[j].key.id
    {
      assert Find(rows, rows[i].key.id) == Some(i) && Find(rows, rows[j].key.id) == Some(j);
    }
  }

  function WithVersions(row: Document, versions: seq<Version>): Document {
    row.(item := row.item.(versions := versions))
  }

  // ----- Listing documents and rewriting each -----

  function Ids(listing: seq<Document>): (ids: seq<int>)
    ensures |ids| == |listing| && forall k :: 0 <= k < |ids| ==> ids[k] == listing[k].key.id
  {
    seq(|listing|, k requires 0 <= k < |listing| => listing[k].key.id)
  }

  /** Distinct ids of existing documents. */
  predicate Enumerates(ids: seq<int>, rows: seq<Document>) {
    && (forall j, k :: 0 <= j < k < |ids| ==> ids[j] != ids[k])
    && (forall k :: 0 <= k < |ids| ==> Find(rows, ids[k]).Some?)
  }

  function RowOf(rows: seq<Document>, ids: seq<int>, k: nat): (row: Document)
    requires Enumerates(ids, rows) && k < |ids|
    ensures row.key.id == ids[k]
  {
    rows[Find(rows, ids[k]).value]
  }

  lemma ListedAt(rows: seq<Document>, ids: seq<int>, n: nat)
    requires WellFormed(rows) && Enumerates(ids, rows) && n < |ids|
    ensures FirstIndex(ids, ids[n]) == n && Find(rows, ids[n]).Some?
    ensures forall j :: 0 <= j < |rows| && rows[j].key.id == ids[n] ==> Find(rows, ids[n]) == Some(j)
  {
    hide Find, FirstIndex;
    assert FirstIndex(ids, ids[n]) <= n;
  }

  lemma ListedOnce(rows: seq<Document>, ids: seq<int>, k: nat)
    requires Enumerates(ids, rows) && k < |ids|
    ensures forall j :: 0 <= j < |ids| && j != k ==> ids[j] != ids[k]
  {
  }

  /** Listing documents of the table in key order names each of them once. */
  lemma ListingEnumerates(rows: seq<Document>, listing: seq<Document>)
    requires WellFormed(rows) && Ascending(listing) && forall d :: d in listing ==> d in rows
    ensures Enumerates(Ids(listing), rows)
    ensures forall k :: 0 <= k < |listing| ==> RowOf(rows, Ids(listing), k) == listing[k]
    ensures forall i :: 0 <= i < |rows| ==> (rows[i].key.id in Ids(listing) <==> rows[i] in listing)
  {
    WellFormedDistinct(rows);
    forall k | 0 <= k < |listing|
      ensures Find(rows, listing[k].key.id).Some? && rows[Find(rows, listing[k].key.id).value] == listing[k]
    {
      assert listing[k] in listing;
    }
    forall i | 0 <= i < |rows|
      ensures rows[i].key.id in Ids(listing) <==> rows[i] in listing
    {
      if rows[i] in listing {
        var k :| 0 <= k < |listing| && listing[k] == rows[i];
        assert Ids(listing)[k] == rows[i].key.id;
      }
    }
  }

  /** The table once a loop over the listed ids has rewritten the documents of the first n. */
  function Rewritten(rows: seq<Document>, ids: seq<int>, f: Document -> Document, n: nat): (r: seq<Document>)
    requires n <= |ids|
    ensures |r| == |rows|
    ensures forall i :: 0 <= i < |r| ==> r[i] == if FirstIndex(ids, rows[i].key.id) < n then f(rows[i]) else rows[i]
  {
    seq(|rows|, i requires 0 <= i < |rows| => if FirstIndex(ids, rows[i].key.id) < n then f(rows[i]) else rows[i])
  }

  ghost predicate KeepsKeys(f: Document -> Document) {
    forall row :: f(row).key == row.key
  }

  lemma RewriteNext(rows: seq<Document>, ids: seq<int>, f: Document -> Document, n: nat)
    requires WellFormed(rows) && Enumerates(ids, rows) && n < |ids| && KeepsKeys(f)
    ensures var before := Rewritten(rows, ids, f, n);
            var found := Find(rows, ids[n]);
            && found.Some? && Find(before, ids[n]) == found && before[found.value] == RowOf(rows, ids, n)
            && Rewritten(rows, ids, f, n + 1) == before[found.value := f(RowOf(rows, ids, n))]
  {
    hide WellFormed, Enumerates, FindAmong, FirstIndex;
    var before, after := Rewritten(rows, ids, f, n), Rewritten(rows, ids, f, n + 1);
    ListedAt(rows, ids, n);
    var i := Find(rows, ids[n]).value;
    forall j | 0 <= j < |rows|
      ensures before[j].key == rows[j].key
      ensures j != i ==> after[j] == before[j]
    {
    }
    FindById(before, rows, ids[n], |rows|);
  }
}
