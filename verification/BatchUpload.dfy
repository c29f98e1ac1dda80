/**
  Bulk upload: a streaming size guard per file, a slot array filled by a first loop for files that are
  turned away and by a second loop for catalog writes, and counters over the finished report.
 */
module BatchUpload {
  import opened Wrappers
  import L = Lifecycle
  import opened MediaTypes

  type Bytes = seq<bv8>

  const READ_CHUNK_SIZE: nat := 8 * 1024 * 1024

  // ----- The streaming guard -----

  /** What reading a body answers, call by call; an empty answer, or the end of the list, is the end of the body. */
  type Chunks = seq<Bytes>

  function Join(chunks: Chunks, n: nat): (r: Bytes)
    requires n <= |chunks|
  {
    if n == 0 then [] else Join(chunks, n - 1) + chunks[n - 1]
  }

  /** How many reads answer something. */
  function Reads(chunks: Chunks): (n: nat)
    ensures n <= |chunks| && (n < |chunks| ==> chunks[n] == []) && forall i :: 0 <= i < n ==> chunks[i] != []
  {
    ReadsFrom(chunks, 0)
  }

  function ReadsFrom(chunks: Chunks, n: nat): (r: nat)
    requires n <= |chunks|
    ensures n <= r <= |chunks| && (r < |chunks| ==> chunks[r] == []) && forall i :: n <= i < r ==> chunks[i] != []
    decreases |chunks| - n
  {
    if n == |chunks| || chunks[n] == [] then n else ReadsFrom(chunks, n + 1)
  }

  function Body(chunks: Chunks): Bytes {
    Join(chunks, Reads(chunks))
  }

  lemma {:induction false} JoinGrows(chunks: Chunks, m: nat, n: nat)
    requires m <= n <= |chunks|
    ensures Join(chunks, m) <= Join(chunks, n)
  {
    if m < n {
      JoinGrows(chunks, m, n - 1);
    }
  }

  /** An empty body passes whatever the limit, which the settings do not force to be positive. */
  predicate TooBig(body: Bytes, maxBytes: int) {
    body != [] && |body| > maxBytes
  }

  /** The size reported for a body that is too big: up to and including the chunk that crosses the limit. */
  function Overrun(chunks: Chunks, maxBytes: int): nat {
    OverrunFrom(chunks, maxBytes, 0)
  }

  function OverrunFrom(chunks: Chunks, maxBytes: int, n: nat): nat
    requires n <= Reads(chunks)
    decreases Reads(chunks) - n
  {
    if n == Reads(chunks) then |Body(chunks)|
    else if |Join(chunks, n + 1)| > maxBytes then |Join(chunks, n + 1)|
    else OverrunFrom(chunks, maxBytes, n + 1)
  }

  lemma NothingRead(chunks: Chunks, maxBytes: int)
    ensures Join(chunks, 0) == [] && Overrun(chunks, maxBytes) == OverrunFrom(chunks, maxBytes, 0)
    ensures Join(chunks, Reads(chunks)) == Body(chunks)
  {
  }

  lemma ReadNext(chunks: Chunks, maxBytes: int, n: nat)
    requires n < Reads(chunks)
    ensures Join(chunks, n + 1) == Join(chunks, n) + chunks[n] && Join(chunks, n + 1) <= Body(chunks)
    ensures OverrunFrom(chunks, maxBytes, n)
            == if |Join(chunks, n + 1)| > maxBytes then |Join(chunks, n + 1)| else OverrunFrom(chunks, maxBytes, n + 1)
  {
    hide Reads;
    JoinGrows(chunks, n + 1, Reads(chunks));
  }

  /**
    The read loop. The verdict is a matter of the body's length alone, however the body is cut into chunks;
    what is spooled is a prefix of the body that never outgrows the limit.
   */
  method SpoolBody(chunks: Chunks, maxBytes: int) returns (spool: Bytes, total: nat, tooLarge: bool)
    ensures tooLarge <==> TooBig(Body(chunks), maxBytes)
    ensures !tooLarge ==> spool == Body(chunks) && total == |spool|
    ensures spool <= Body(chunks) && (spool == [] || |spool| <= maxBytes)
    ensures tooLarge ==> total == Overrun(chunks, maxBytes)
    ensures tooLarge && (forall i :: 0 <= i < |chunks| ==> |chunks[i]| <= READ_CHUNK_SIZE) ==>
              maxBytes < total <= |Body(chunks)| && total <= (if maxBytes < 0 then 0 else maxBytes) + READ_CHUNK_SIZE
  {
    hide Reads, Join, Body, Overrun, OverrunFrom;
    spool, total, tooLarge := [], 0, false;
    var n := 0;
    NothingRead(chunks, maxBytes);
    while true
      invariant n <= Reads(chunks) && spool <= Body(chunks) && spool == Join(chunks, n) && total == |spool| && (n == 0 || total <= maxBytes) && !tooLarge
      invariant Overrun(chunks, maxBytes) == OverrunFrom(chunks, maxBytes, n)
      decreases Reads(chunks) - n
    {
      var chunk := if n < |chunks| then chunks[n] else [];
      if chunk == [] {
        break;
      }
      total := total + |chunk|;
      ReadNext(chunks, maxBytes, n);
      if total > maxBytes {
        tooLarge := true;
        break;
      }
      spool := spool + chunk;
      n := n + 1;
    }
  }

  /** `_iter_chunks`: reads a spool back block by block. */
  method IterChunks(spool: Bytes, size: nat) returns (blocks: Chunks)
    requires size > 0
    ensures Join(blocks, |blocks|) == spool
    ensures forall i :: 0 <= i < |blocks| ==> 0 < |blocks[i]| <= size
  {
    blocks := [];
    var at := 0;
    while true
      invariant at <= |spool| && Join(blocks, |blocks|) == spool[..at]
      invariant forall i :: 0 <= i < |blocks| ==> 0 < |blocks[i]| <= size
      decreases |spool| - at
    {
      var block := spool[at..if at + size < |spool| then at + size else |spool|];
      if block == [] {
        break;
      }
      JoinExtend(blocks, block);
      blocks := blocks + [block];
      at := at + |block|;
    }
  }

  lemma {:induction false} JoinPrefix(a: Chunks, b: Chunks, n: nat)
    requires n <= |a| <= |b| && a == b[..|a|]
    ensures Join(a, n) == Join(b, n)
  {
    if n > 0 {
      JoinPrefix(a, b, n - 1);
    }
  }

  lemma JoinExtend(blocks: Chunks, block: Bytes)
    ensures Join(blocks + [block], |blocks| + 1) == Join(blocks, |blocks|) + block
  {
    JoinPrefix(blocks, blocks + [block], |blocks|);
  }

  /** A body is read chunk by chunk up to the first empty one. */
  lemma BodyMeans(chunk: Bytes, rest: Chunks)
    ensures Body([]) == [] && Body([chunk] + rest) == if chunk == [] then [] else chunk + Body(rest)
  {
    var chunks := [chunk] + rest;
    if chunk != [] {
      ReadsMore(chunk, rest, 0);
      JoinMore(chunk, rest, Reads(rest));
    }
  }

  lemma {:induction false} ReadsMore(chunk: Bytes, rest: Chunks, n: nat)
    requires n <= |rest|
    ensures ReadsFrom([chunk] + rest, n + 1) == ReadsFrom(rest, n) + 1
    decreases |rest| - n
  {
    if n < |rest| && rest[n] != [] {
      ReadsMore(chunk, rest, n + 1);
    }
  }

  lemma {:induction false} JoinMore(chunk: Bytes, rest: Chunks, n: nat)
    requires n <= |rest|
    ensures Join([chunk] + rest, n + 1) == chunk + Join(rest, n)
  {
    if n > 0 {
      JoinMore(chunk, rest, n - 1);
    }
  }

  /** What is read of a body that is too large: its chunks up to the first that exceeds the limit. */
  lemma OverrunMeans(chunks: Chunks, maxBytes: int) returns (n: nat)
    requires TooBig(Body(chunks), maxBytes)
    ensures n < Reads(chunks) && Overrun(chunks, maxBytes) == |Join(chunks, n + 1)| > maxBytes
    ensures forall m :: 0 < m <= n ==> |Join(chunks, m)| <= maxBytes
  {
    NothingRead(chunks, maxBytes);
    n := OverrunAt(chunks, maxBytes, 0);
  }

  lemma {:induction false} OverrunAt(chunks: Chunks, maxBytes: int, from: nat) returns (n: nat)
    requires TooBig(Body(chunks), maxBytes) && from <= Reads(chunks) && (from == 0 || |Join(chunks, from)| <= maxBytes)
    requires forall m :: 0 < m <= from ==> |Join(chunks, m)| <= maxBytes
    ensures from <= n < Reads(chunks) && OverrunFrom(chunks, maxBytes, from) == |Join(chunks, n + 1)| > maxBytes
    ensures forall m :: 0 < m <= n ==> |Join(chunks, m)| <= maxBytes
    decreases Reads(chunks) - from
  {
    if |Join(chunks, from + 1)| > maxBytes {
      n := from;
    } else {
      n := OverrunAt(chunks, maxBytes, from + 1);
    }
  }

  // ----- The catalog -----

  /** A cataloged version with the bytes stored for it. */
  datatype Entry = Entry(documentId: int, number: nat, filename: string, contentType: string, body: Bytes,
                           status: L.Status, duplicateOf: Option<nat>)

  /**
    The catalog: its versions in the order they were written, the hash index (digest to position), the
    archived families that lookups hide, and the next fresh document id.
   */
  datatype Shelf = Shelf(versions: seq<Entry>, index: map<int, nat>, archived: set<int>, nextDocument: int)

  /** The highest version number of a family among the first n versions, 0 if it has none. */
  function MaxNumber(versions: seq<Entry>, documentId: int, n: nat): (m: nat)
    requires n <= |versions|
    ensures forall i :: 0 <= i < n && versions[i].documentId == documentId ==> versions[i].number <= m
  {
    if n == 0 then 0
    else
      var rest := MaxNumber(versions, documentId, n - 1);
      if versions[n - 1].documentId == documentId && versions[n - 1].number > rest then versions[n - 1].number else rest
  }

  predicate IsShelf(shelf: Shelf) {
    && (forall d :: d in shelf.index ==> shelf.index[d] < |shelf.versions|)
    && (forall i :: 0 <= i < |shelf.versions| ==> shelf.versions[i].documentId < shelf.nextDocument)
  }

  /** `get_document` finds the family: it has versions and is not archived. */
  predicate Found(shelf: Shelf, documentId: int) {
    documentId !in shelf.archived && exists i :: 0 <= i < |shelf.versions| && shelf.versions[i].documentId == documentId
  }

  /** What `upload_stream` writes, for the family the client named or without one. */
  function Write(shelf: Shelf, target: Option<int>, filename: string, contentType: string, body: Bytes, digest: int): (r: Shelf)
    requires IsShelf(shelf) && (target.Some? ==> Found(shelf, target.value))
    ensures IsShelf(r)
  {
    var duplicate := if digest in shelf.index then Some(shelf.index[digest]) else None;
    var family := if target.Some? then target else if duplicate.Some? then Some(shelf.versions[duplicate.value].documentId) else None;
    var joins := family.Some? && family.value !in shelf.archived;
    var documentId := if joins then family.value else shelf.nextDocument;
    var number := if joins then MaxNumber(shelf.versions, documentId, |shelf.versions|) + 1 else 1;
    var version := Entry(documentId, number, filename, contentType, body,
                          if duplicate.Some? then L.DuplicateDetected else L.Stored, duplicate);
    Shelf(shelf.versions + [version],
          if duplicate.Some? then shelf.index else shelf.index[digest := |shelf.versions|],
          shelf.archived,
          if joins then shelf.nextDocument else shelf.nextDocument + 1)
  }

  function Members(versions: seq<Entry>, documentId: int, n: nat): nat
    requires n <= |versions|
  {
    if n == 0 then 0 else Members(versions, documentId, n - 1) + if versions[n - 1].documentId == documentId then 1 else 0
  }

  /** Within each family the versions are numbered 1, 2, 3, ... in the order they were written. */
  predicate Numbered(versions: seq<Entry>) {
    forall i :: 0 <= i < |versions| ==> versions[i].number == Members(versions, versions[i].documentId, i) + 1
  }

  lemma {:induction false} MaxNumberCounts(versions: seq<Entry>, documentId: int, n: nat)
    requires n <= |versions| && Numbered(versions)
    ensures MaxNumber(versions, documentId, n) == Members(versions, documentId, n)
  {
    if n > 0 {
      MaxNumberCounts(versions, documentId, n - 1);
    }
  }

  lemma {:induction false} MembersPrefix(versions: seq<Entry>, more: seq<Entry>, documentId: int, n: nat)
    requires n <= |versions| && versions <= more
    ensures Members(more, documentId, n) == Members(versions, documentId, n)
  {
    if n > 0 {
      MembersPrefix(versions, more, documentId, n - 1);
    }
  }

  lemma {:induction false} NoMembers(versions: seq<Entry>, documentId: int, n: nat)
    requires n <= |versions| && forall i :: 0 <= i < |versions| ==> versions[i].documentId != documentId
    ensures Members(versions, documentId, n) == 0
  {
    if n > 0 {
      NoMembers(versions, documentId, n - 1);
    }
  }

  /** Numbering a version one above the family's maximum keeps every family gap-free and without repeats. */
  lemma WriteKeepsNumbering(shelf: Shelf, target: Option<int>, filename: string, contentType: string, body: Bytes, digest: int)
    requires IsShelf(shelf) && (target.Some? ==> Found(shelf, target.value)) && Numbered(shelf.versions)
    ensures Numbered(Write(shelf, target, filename, contentType, body, digest).versions)
  {
    var n, after := |shelf.versions|, Write(shelf, target, filename, contentType, body, digest).versions;
    hide Members, MaxNumber;
    forall i | 0 <= i <= n
      ensures after[i].number == Members(after, after[i].documentId, i) + 1
    {
      MembersPrefix(shelf.versions, after, after[i].documentId, i);
      if i == n && after[n].documentId == shelf.nextDocument {
        NoMembers(shelf.versions, shelf.nextDocument, n);
      } else if i == n {
        MaxNumberCounts(shelf.versions, after[n].documentId, n);
      }
    }
  }

  /** The hash index finds a version with that hash, and finds one for every version cataloged. */
  predicate Indexed(shelf: Shelf, digest: Bytes -> int)
    requires IsShelf(shelf)
  {
    && (forall d :: d in shelf.index ==> digest(shelf.versions[shelf.index[d]].body) == d)
    && (forall i :: 0 <= i < |shelf.versions| ==> digest(shelf.versions[i].body) in shelf.index)
  }

  /**
    An upload joins the family the client named. Without one, a body whose hash is known joins the family of the version
    it duplicates, unless that family is archived; any other starts a family of its own.
   */
  lemma WriteFindsFamily(shelf: Shelf, target: Option<int>, filename: string, contentType: string, body: Bytes, digest: Bytes -> int)
    requires IsShelf(shelf) && (target.Some? ==> Found(shelf, target.value)) && Indexed(shelf, digest)
    ensures var after := Write(shelf, target, filename, contentType, body, digest(body));
            var v := after.versions[|shelf.versions|];
            && Indexed(after, digest)
            && (v.duplicateOf.Some? <==> exists i :: 0 <= i < |shelf.versions| && digest(shelf.versions[i].body) == digest(body))
            && (v.duplicateOf.Some? ==> v.duplicateOf.value < |shelf.versions| && digest(shelf.versions[v.duplicateOf.value].body) == digest(body))
            && if target.Some? then v.documentId == target.value
               else if v.duplicateOf.Some? && shelf.versions[v.duplicateOf.value].documentId !in shelf.archived
               then v.documentId == shelf.versions[v.duplicateOf.value].documentId
               else v.number == 1 && forall i :: 0 <= i < |shelf.versions| ==> shelf.versions[i].documentId != v.documentId
  {
    hide MaxNumber;
    var after := Write(shelf, target, filename, contentType, body, digest(body));
    forall i | 0 <= i < |after.versions|
      ensures digest(after.versions[i].body) in after.index
    {
      assert i < |shelf.versions| ==> after.versions[i] == shelf.versions[i];
    }
  }

  // ----- Files and outcomes -----

  datatype File = File(filename: Option<string>, contentType: Option<string>, chunks: Chunks)

  datatype OutcomeStatus = Uploaded | Duplicate | RejectedContentType | TooLarge | Empty | Failed

  /** `version` is the position of the cataloged version in the order of writing. */
  datatype Outcome = Outcome(filename: string, contentType: string, bytes: nat, status: OutcomeStatus, version: Option<nat>)

  datatype Summary = Summary(total: nat, uploaded: nat, duplicate: nat, rejectedContentType: nat, tooLarge: nat, empty: nat, failed: nat)

  datatype Reply = NoFiles | Report(results: seq<Outcome>, summary: Summary)

  function Name(file: File): string {
    if file.filename.Some? && file.filename.value != "" then file.filename.value else "untitled"
  }

  function RawType(file: File): string {
    if file.contentType.Some? && file.contentType.value != "" then file.contentType.value else "application/octet-stream"
  }

  /** The outcome of a file the first loop turns away; None for a file that awaits its catalog write. */
  function TurnedAway(file: File, allowed: set<string>, maxBytes: int): Option<Outcome> {
    var bare := BareType(RawType(file));
    var body := Body(file.chunks);
    if bare !in allowed then Some(Outcome(Name(file), bare, 0, RejectedContentType, None))
    else if TooBig(body, maxBytes) then Some(Outcome(Name(file), bare, Overrun(file.chunks, maxBytes), TooLarge, None))
    else if body == [] then Some(Outcome(Name(file), bare, 0, Empty, None))
    else None
  }

  /** The positions, in order, of the files among the first n that await a catalog write. */
  function Pending(files: seq<File>, allowed: set<string>, maxBytes: int, n: nat): (p: seq<nat>)
    requires n <= |files|
    ensures |p| <= n
    ensures forall k :: 0 <= k < |p| ==> p[k] < n && TurnedAway(files[p[k]], allowed, maxBytes).None?
  {
    if n == 0 then []
    else if TurnedAway(files[n - 1], allowed, maxBytes).None? then Pending(files, allowed, maxBytes, n - 1) + [n - 1]
    else Pending(files, allowed, maxBytes, n - 1)
  }

  // ----- What a batch does to the catalog -----

  /** Everything a batch depends on: the files, the settings, the hash, and which files' catalog writes raise. */
  datatype Batch = Batch(files: seq<File>, allowed: set<string>, maxBytes: int, digest: Bytes -> int, broken: set<nat>)

  function Queue(b: Batch): (p: seq<nat>)
    ensures forall k :: 0 <= k < |p| ==> p[k] < |b.files|
  {
    Pending(b.files, b.allowed, b.maxBytes, |b.files|)
  }

  /** How many files before file i await a catalog write. */
  function Rank(b: Batch, i: nat): nat
    requires i <= |b.files|
  {
    |Pending(b.files, b.allowed, b.maxBytes, i)|
  }

  lemma {:induction false} PendingGrows(b: Batch, m: nat, n: nat)
    requires m <= n <= |b.files|
    ensures Pending(b.files, b.allowed, b.maxBytes, m) <= Pending(b.files, b.allowed, b.maxBytes, n)
  {
    hide TurnedAway;
    if m < n {
      PendingGrows(b, m, n - 1);
    }
  }

  /** The queue holds exactly the files that were not turned away, in the order of the request. */
  lemma QueuedAtRank(b: Batch, i: nat)
    requires i < |b.files| && TurnedAway(b.files[i], b.allowed, b.maxBytes).None?
    ensures Rank(b, i) < |Queue(b)| && Queue(b)[Rank(b, i)] == i
  {
    hide TurnedAway;
    PendingGrows(b, i + 1, |b.files|);
  }

  lemma {:induction false} RankOfQueued(b: Batch, k: nat, n: nat)
    requires n <= |b.files| && k < |Pending(b.files, b.allowed, b.maxBytes, n)|
    ensures Rank(b, Pending(b.files, b.allowed, b.maxBytes, n)[k]) == k
  {
    hide TurnedAway;
    if k < |Pending(b.files, b.allowed, b.maxBytes, n - 1)| {
      RankOfQueued(b, k, n - 1);
    }
  }

  /** The catalog after the first k pending files. */
  function WriteAll(shelf: Shelf, b: Batch, k: nat): (r: Shelf)
    requires IsShelf(shelf) && k <= |Queue(b)|
    ensures IsShelf(r)
  {
    if k == 0 then shelf
    else
      var before := WriteAll(shelf, b, k - 1);
      var i := Queue(b)[k - 1];
      if i in b.broken then before
      else Write(before, None, Name(b.files[i]), RawType(b.files[i]), Body(b.files[i].chunks), b.digest(Body(b.files[i].chunks)))
  }

  lemma {:induction false} BatchKeepsNumbering(shelf: Shelf, b: Batch, k: nat)
    requires IsShelf(shelf) && Numbered(shelf.versions) && k <= |Queue(b)|
    ensures Numbered(WriteAll(shelf, b, k).versions)
  {
    hide Numbered, Write, Queue, Body;
    if k > 0 {
      BatchKeepsNumbering(shelf, b, k - 1);
      var file := b.files[Queue(b)[k - 1]];
      WriteKeepsNumbering(WriteAll(shelf, b, k - 1), None, Name(file), RawType(file), Body(file.chunks), b.digest(Body(file.chunks)));
    }
  }

  /** The outcome of the k-th pending file. */
  function WrittenOutcome(shelf: Shelf, b: Batch, k: nat): Outcome
    requires IsShelf(shelf) && k < |Queue(b)|
  {
    var file, before := b.files[Queue(b)[k]], WriteAll(shelf, b, k);
    var body := Body(file.chunks);
    if Queue(b)[k] in b.broken then Outcome(Name(file), BareType(RawType(file)), |body|, Failed, None)
    else Outcome(Name(file), BareType(RawType(file)), |body|, if b.digest(body) in before.index then Duplicate else Uploaded,
                 Some(|before.versions|))
  }

  /** The first j pending files whose catalog write did not raise. */
  function Landed(b: Batch, j: nat): nat
    requires j <= |Queue(b)|
  {
    if j == 0 then 0 else Landed(b, j - 1) + if Queue(b)[j - 1] in b.broken then 0 else 1
  }

  /** Older versions stay as they are, and one version is added per catalog write that did not raise. */
  lemma {:induction false} WritesAppend(shelf: Shelf, b: Batch, j: nat, k: nat)
    requires IsShelf(shelf) && j <= k <= |Queue(b)|
    ensures WriteAll(shelf, b, j).versions <= WriteAll(shelf, b, k).versions
    ensures |WriteAll(shelf, b, k).versions| == |WriteAll(shelf, b, j).versions| + Landed(b, k) - Landed(b, j)
  {
    hide Queue, MaxNumber, Body;
    if j < k {
      WritesAppend(shelf, b, j, k - 1);
    }
  }

  /** The catalog writes happen in the order of the files, each storing the bytes of its own file. */
  lemma WrittenInOrder(shelf: Shelf, b: Batch, k: nat)
    requires IsShelf(shelf) && k < |Queue(b)| && Queue(b)[k] !in b.broken
    ensures var file, after := b.files[Queue(b)[k]], WriteAll(shelf, b, |Queue(b)|).versions;
            var at := |shelf.versions| + Landed(b, k);
            && at < |after| && WrittenOutcome(shelf, b, k).version == Some(at)
            && after[at].filename == Name(file) && after[at].contentType == RawType(file) && after[at].body == Body(file.chunks)
            && (after[at].status == L.DuplicateDetected <==> WrittenOutcome(shelf, b, k).status == Duplicate)
            && (after[at].status == L.Stored <==> WrittenOutcome(shelf, b, k).status == Uploaded)
  {
    hide Queue, Body, BareType, Name, RawType, WriteAll, Landed;
    LandsNext(shelf, b, k);
    WritesAppend(shelf, b, 0, k);
    WritesAppend(shelf, b, k + 1, |Queue(b)|);
    assert WriteAll(shelf, b, 0) == shelf && Landed(b, 0) == 0 by {
      NothingWritten(shelf, b);
    }
  }

  lemma NothingWritten(shelf: Shelf, b: Batch)
    requires IsShelf(shelf)
    ensures WriteAll(shelf, b, 0) == shelf && Landed(b, 0) == 0
  {
  }

  lemma LandsNext(shelf: Shelf, b: Batch, k: nat)
    requires IsShelf(shelf) && k < |Queue(b)| && Queue(b)[k] !in b.broken
    ensures var file, before, after := b.files[Queue(b)[k]], WriteAll(shelf, b, k), WriteAll(shelf, b, k + 1).versions;
            var at := |before.versions|;
            && at < |after|
            && after[at].filename == Name(file) && after[at].contentType == RawType(file) && after[at].body == Body(file.chunks)
            && after[at].status == if b.digest(Body(file.chunks)) in before.index then L.DuplicateDetected else L.Stored
  {
    hide Queue, Body, Name, RawType, MaxNumber;
  }

  lemma {:induction false} IndexedUpTo(shelf: Shelf, b: Batch, k: nat, d: int)
    requires IsShelf(shelf) && k <= |Queue(b)|
    ensures d in WriteAll(shelf, b, k).index <==>
              || d in shelf.index
              || exists j :: 0 <= j < k && Queue(b)[j] !in b.broken && b.digest(Body(b.files[Queue(b)[j]].chunks)) == d
  {
    hide Queue, MaxNumber, Body;
    if k > 0 {
      IndexedUpTo(shelf, b, k - 1, d);
    }
  }

  /** A file is a duplicate exactly when its hash was known before the batch or an earlier file of it landed with it. */
  lemma DuplicateMeansSeen(shelf: Shelf, b: Batch, k: nat)
    requires IsShelf(shelf) && k < |Queue(b)| && Queue(b)[k] !in b.broken
    ensures var d := b.digest(Body(b.files[Queue(b)[k]].chunks));
            WrittenOutcome(shelf, b, k).status == Duplicate <==>
              || d in shelf.index
              || exists j :: 0 <= j < k && Queue(b)[j] !in b.broken && b.digest(Body(b.files[Queue(b)[j]].chunks)) == d
  {
    hide Queue, MaxNumber, Body;
    IndexedUpTo(shelf, b, k, b.digest(Body(b.files[Queue(b)[k]].chunks)));
  }

  // ----- The report -----

  /** What the report says about file i. */
  function Expected(shelf: Shelf, b: Batch, i: nat): Outcome
    requires IsShelf(shelf) && i < |b.files|
  {
    var turnedAway := TurnedAway(b.files[i], b.allowed, b.maxBytes);
    if turnedAway.Some? then turnedAway.value
    else
      QueuedAtRank(b, i);
      WrittenOutcome(shelf, b, Rank(b, i))
  }

  /** The result of file i in terms of its media type, its length and the limit. */
  predicate Describes(b: Batch, i: nat, r: Outcome)
    requires i < |b.files|
  {
    var file := b.files[i];
    var length := |Body(file.chunks)|;
    var accepted := r.contentType in b.allowed;
    && r.filename == (if file.filename.None? || file.filename.value == "" then "untitled" else file.filename.value)
    && r.contentType == BareType(if file.contentType.None? || file.contentType.value == "" then "application/octet-stream"
                                 else file.contentType.value)
    && (r.status == RejectedContentType <==> !accepted)
    && (r.status == TooLarge <==> accepted && length > 0 && length > b.maxBytes)
    && (r.status == Empty <==> accepted && length == 0)
    && (r.status == Failed <==> accepted && 0 < length <= b.maxBytes && i in b.broken)
    && (r.status == Uploaded || r.status == Duplicate <==> accepted && 0 < length <= b.maxBytes && i !in b.broken)
    && (r.version.Some? <==> r.status == Uploaded || r.status == Duplicate)
    && r.bytes == (if !accepted then 0 else if r.status == TooLarge then Overrun(file.chunks, b.maxBytes) else length)
  }

  lemma ResultMeans(shelf: Shelf, b: Batch, i: nat)
    requires IsShelf(shelf) && i < |b.files|
    ensures Describes(b, i, Expected(shelf, b, i))
  {
    hide Body, BareType, WriteAll, Queue, Overrun;
    if TurnedAway(b.files[i], b.allowed, b.maxBytes).None? {
      QueuedAtRank(b, i);
    }
  }

  // ----- Content-type parameters -----

  /** The same files in the same order, but for parameters of file i's content type. */
  ghost predicate SameButParameters(b: Batch, c: Batch, i: nat, parameters: string) {
    && i < |b.files| == |c.files| && b.allowed == c.allowed && b.maxBytes == c.maxBytes && b.digest == c.digest && b.broken == c.broken
    && (forall j :: 0 <= j < |b.files| && j != i ==> c.files[j] == b.files[j])
    && b.files[i].contentType.Some? && b.files[i].contentType.value != "" && ';' !in b.files[i].contentType.value
    && c.files[i] == b.files[i].(contentType := Some(b.files[i].contentType.value + ";" + parameters))
  }

  lemma SameTurnedAway(b: Batch, c: Batch, i: nat, parameters: string, j: nat)
    requires SameButParameters(b, c, i, parameters) && j < |b.files|
    ensures BareType(RawType(c.files[j])) == BareType(RawType(b.files[j]))
    ensures TurnedAway(c.files[j], c.allowed, c.maxBytes) == TurnedAway(b.files[j], b.allowed, b.maxBytes)
  {
    hide BareType;
    if j == i {
      ParametersAreDropped(b.files[i].contentType.value, parameters);
    }
  }

  lemma {:induction false} SamePending(b: Batch, c: Batch, i: nat, parameters: string, n: nat)
    requires SameButParameters(b, c, i, parameters) && n <= |b.files|
    ensures Pending(c.files, c.allowed, c.maxBytes, n) == Pending(b.files, b.allowed, b.maxBytes, n)
  {
    hide TurnedAway, SameButParameters;
    if n > 0 {
      SameLengths(b, c, i, parameters);
      SameTurnedAway(b, c, i, parameters, n - 1);
      SamePending(b, c, i, parameters, n - 1);
    }
  }

  lemma SameLengths(b: Batch, c: Batch, i: nat, parameters: string)
    requires SameButParameters(b, c, i, parameters)
    ensures |b.files| == |c.files|
  {
  }

  /** The same catalog, but for the content types stored. */
  predicate SameButTypes(s: Shelf, r: Shelf) {
    && |s.versions| == |r.versions| && s.index == r.index && s.archived == r.archived && s.nextDocument == r.nextDocument
    && forall v :: 0 <= v < |s.versions| ==> r.versions[v] == s.versions[v].(contentType := r.versions[v].contentType)
  }

  lemma {:induction false} SameMax(s: seq<Entry>, r: seq<Entry>, documentId: int, n: nat)
    requires n <= |s| == |r| && forall v :: 0 <= v < |s| ==> r[v] == s[v].(contentType := r[v].contentType)
    ensures MaxNumber(s, documentId, n) == MaxNumber(r, documentId, n)
  {
    if n > 0 {
      SameMax(s, r, documentId, n - 1);
    }
  }

  lemma SameWrite(s: Shelf, r: Shelf, filename: string, a: string, c: string, body: Bytes, digest: int)
    requires IsShelf(s) && IsShelf(r) && SameButTypes(s, r)
    ensures SameButTypes(Write(s, None, filename, a, body, digest), Write(r, None, filename, c, body, digest))
  {
    hide MaxNumber;
    forall d {
      SameMax(s.versions, r.versions, d, |s.versions|);
    }
  }

  lemma {:induction false} SameWrites(shelf: Shelf, b: Batch, c: Batch, i: nat, parameters: string, k: nat)
    requires IsShelf(shelf) && SameButParameters(b, c, i, parameters) && k <= |Queue(b)|
    ensures Queue(b) == Queue(c) && SameButTypes(WriteAll(shelf, b, k), WriteAll(shelf, c, k))
  {
    hide Write, Body, RawType, TurnedAway, Pending, SameButTypes;
    SamePending(b, c, i, parameters, |b.files|);
    if k > 0 {
      SameWrites(shelf, b, c, i, parameters, k - 1);
      var j := Queue(b)[k - 1];
      assert c.files[j].chunks == b.files[j].chunks && c.files[j].filename == b.files[j].filename;
      if j !in b.broken {
        SameWrite(WriteAll(shelf, b, k - 1), WriteAll(shelf, c, k - 1), Name(b.files[j]), RawType(b.files[j]), RawType(c.files[j]),
                  Body(b.files[j].chunks), b.digest(Body(b.files[j].chunks)));
      }
    } else {
      SameItself(shelf);
    }
  }

  lemma SameItself(shelf: Shelf)
    ensures SameButTypes(shelf, shelf)
  {
  }

  /** Adding parameters to a file's content type changes no result of the batch, neither its own nor another file's. */
  lemma ParametersDoNotMatter(shelf: Shelf, b: Batch, c: Batch, i: nat, parameters: string, j: nat)
    requires IsShelf(shelf) && SameButParameters(b, c, i, parameters) && j < |b.files|
    ensures Expected(shelf, c, j) == Expected(shelf, b, j)
  {
    hide TurnedAway, BareType, RawType, Body, WriteAll, Pending;
    SameTurnedAway(b, c, i, parameters, j);
    SamePending(b, c, i, parameters, j);
    if TurnedAway(b.files[j], b.allowed, b.maxBytes).None? {
      QueuedAtRank(b, j);
      QueuedAtRank(c, j);
      SameWrites(shelf, b, c, i, parameters, Rank(b, j));
      assert c.files[j].chunks == b.files[j].chunks && c.files[j].filename == b.files[j].filename;
    }
  }

  /** The slot of file i once the first k pending files are written. */
  function Slot(shelf: Shelf, b: Batch, i: nat, k: nat): Option<Outcome>
    requires IsShelf(shelf) && i < |b.files|
  {
    if TurnedAway(b.files[i], b.allowed, b.maxBytes).Some? || Rank(b, i) < k then Some(Expected(shelf, b, i)) else None
  }

  function Tally(results: seq<Outcome>, status: OutcomeStatus): nat {
    if results == [] then 0
    else Tally(results[..|results| - 1], status) + if results[|results| - 1].status == status then 1 else 0
  }

  function Summarized(results: seq<Outcome>): Summary {
    Summary(|results|, Tally(results, Uploaded), Tally(results, Duplicate), Tally(results, RejectedContentType),
            Tally(results, TooLarge), Tally(results, Empty), Tally(results, Failed))
  }

  function Positions(results: seq<Outcome>, status: OutcomeStatus, n: nat): set<nat>
    requires n <= |results|
  {
    set i: nat | i < n && results[i].status == status
  }

  /** Each counter is the number of results with its status. */
  lemma CountersCount(results: seq<Outcome>)
    ensures var s, n := Summarized(results), |results|;
            && s.total == n
            && s.uploaded == |Positions(results, Uploaded, n)| && s.duplicate == |Positions(results, Duplicate, n)|
            && s.rejectedContentType == |Positions(results, RejectedContentType, n)|
            && s.tooLarge == |Positions(results, TooLarge, n)| && s.empty == |Positions(results, Empty, n)|
            && s.failed == |Positions(results, Failed, n)|
  {
    hide Tally, Positions;
    assert results[..|results|] == results;
    forall status: OutcomeStatus {
      TallyCounts(results, status, |results|);
    }
  }

  lemma {:induction false} TallyCounts(results: seq<Outcome>, status: OutcomeStatus, n: nat)
    requires n <= |results|
    ensures Tally(results[..n], status) == |Positions(results, status, n)|
  {
    if n > 0 {
      TallyCounts(results, status, n - 1);
      assert results[..n][..n - 1] == results[..n - 1];
      OneMorePosition(results, status, n - 1);
    }
  }

  lemma OneMorePosition(results: seq<Outcome>, status: OutcomeStatus, n: nat)
    requires n < |results|
    ensures |Positions(results, status, n + 1)| == |Positions(results, status, n)| + if results[n].status == status then 1 else 0
  {
    var before := Positions(results, status, n);
    assert Positions(results, status, n + 1) == if results[n].status == status then before + {n} else before;
  }

  /** The six counters sum to the number of files. */
  lemma {:induction false} CountersSum(results: seq<Outcome>)
    ensures var s := Summarized(results);
            s.uploaded + s.duplicate + s.rejectedContentType + s.tooLarge + s.empty + s.failed == s.total
  {
    if results != [] {
      CountersSum(results[..|results| - 1]);
    }
  }

  /** (input index, spool, filename, content type, bare type, total bytes) of a file that awaits its catalog write. */
  datatype PendingWrite = PendingWrite(index: nat, spool: Bytes, filename: string, contentType: string, bare: string, total: nat)

  function Spooled(b: Batch, i: nat): PendingWrite
    requires i < |b.files|
  {
    var file := b.files[i];
    PendingWrite(i, Body(file.chunks), Name(file), RawType(file), BareType(RawType(file)), |Body(file.chunks)|)
  }

  lemma FirstSlots(shelf: Shelf, b: Batch)
    requires IsShelf(shelf)
    ensures forall i :: 0 <= i < |b.files| ==> Slot(shelf, b, i, 0) == TurnedAway(b.files[i], b.allowed, b.maxBytes)
  {
    hide TurnedAway;
  }

  lemma LastSlots(shelf: Shelf, b: Batch)
    requires IsShelf(shelf)
    ensures forall i :: 0 <= i < |b.files| ==> Slot(shelf, b, i, |Queue(b)|) == Some(Expected(shelf, b, i))
  {
    hide TurnedAway, Expected, Queue, Rank;
    forall i | 0 <= i < |b.files| && TurnedAway(b.files[i], b.allowed, b.maxBytes).None? {
      QueuedAtRank(b, i);
    }
  }

  lemma NextSlot(shelf: Shelf, b: Batch, k: nat)
    requires IsShelf(shelf) && k < |Queue(b)|
    ensures Spooled(b, Queue(b)[k]).index == Queue(b)[k]
    ensures Slot(shelf, b, Queue(b)[k], k + 1) == Some(WrittenOutcome(shelf, b, k))
    ensures forall i :: 0 <= i < |b.files| && i != Queue(b)[k] ==> Slot(shelf, b, i, k + 1) == Slot(shelf, b, i, k)
  {
    hide TurnedAway, WrittenOutcome, Pending, Rank, Body, Name, RawType, BareType;
    RankOfQueued(b, k, |b.files|);
    assert TurnedAway(b.files[Queue(b)[k]], b.allowed, b.maxBytes).None?;
    forall i | 0 <= i < |b.files| && i != Queue(b)[k]
      ensures Slot(shelf, b, i, k + 1) == Slot(shelf, b, i, k)
    {
      if TurnedAway(b.files[i], b.allowed, b.maxBytes).None? {
        QueuedAtRank(b, i);
      }
    }
  }

  class UploadService {
    const digest: Bytes -> int
    var shelf: Shelf

    /** `get_document` on the catalog: whether the family exists and is not archived. */
    method FindFamily(documentId: int) returns (found: bool)
      ensures found <==> Found(shelf, documentId)
    {
      if documentId in shelf.archived {
        return false;
      }
      for i := 0 to |shelf.versions|
        invariant forall j :: 0 <= j < i ==> shelf.versions[j].documentId != documentId
      {
        if shelf.versions[i].documentId == documentId {
          return true;
        }
      }
      return false;
    }

    /**
      `upload_stream`: joins and hashes the blocks, then catalogs them in the family named or found; None where it
      raises, as it does before reading anything when the named family is not found.
     */
    method UploadStream(target: Option<int>, filename: string, contentType: string, blocks: Chunks, raises: bool) returns (version: Option<nat>)
      requires IsShelf(shelf)
      modifies `shelf
      ensures IsShelf(shelf)
      ensures version.None? <==> raises || (target.Some? && !Found(old(shelf), target.value))
      ensures version.None? <==>
                || raises
                || (target.Some? && (target.value in old(shelf).archived || forall i :: 0 <= i < |old(shelf).versions| ==>
                                       old(shelf).versions[i].documentId != target.value))
      ensures version.None? ==> shelf == old(shelf)
      ensures version.Some? ==>
                && version.value == |old(shelf).versions|
                && shelf == Write(old(shelf), target, filename, contentType, Join(blocks, |blocks|), digest(Join(blocks, |blocks|)))
    {
      if target.Some? {
        var found := FindFamily(target.value);
        if !found {
          return None;
        }
      }
      var body: Bytes := [];
      for n := 0 to |blocks|
        invariant body == Join(blocks, n)
      {
        body := body + blocks[n];
      }
      if raises {
        return None;
      }
      var d := digest(body);
      var duplicate: Option<nat> := None;
      var family := target;
      if d in shelf.index {
        duplicate := Some(shelf.index[d]);
      }
      if family.None? && duplicate.Some? {
        var owner := shelf.versions[duplicate.value].documentId;
        family := if owner in shelf.archived then None else Some(owner);
      }
      var documentId, number := shelf.nextDocument, 1;
      if family.Some? {
        documentId := family.value;
        number := MaxNumber(shelf.versions, documentId, |shelf.versions|) + 1;
      }
      var entry := Entry(documentId, number, filename, contentType, body,
                         if duplicate.Some? then L.DuplicateDetected else L.Stored, duplicate);
      shelf := shelf.(versions := shelf.versions + [entry],
                      index := if duplicate.Some? then shelf.index else shelf.index[d := |shelf.versions|],
                      nextDocument := if family.Some? then shelf.nextDocument else shelf.nextDocument + 1);
      return Some(|shelf.versions| - 1);
    }

    /** The first loop: every file is either classified in its slot or spooled for its catalog write. */
    method BufferFiles(b: Batch, outcomes: array<Option<Outcome>>) returns (pending: seq<PendingWrite>)
      requires outcomes.Length == |b.files| && forall i :: 0 <= i < outcomes.Length ==> outcomes[i] == None
      modifies outcomes
      ensures forall i :: 0 <= i < outcomes.Length ==> outcomes[i] == TurnedAway(b.files[i], b.allowed, b.maxBytes)
      ensures |pending| == |Queue(b)| && forall k :: 0 <= k < |pending| ==> pending[k] == Spooled(b, Queue(b)[k])
    {
      hide Body, BareType, RawType, Name, Overrun;
      pending := [];
      for index := 0 to |b.files|
        invariant forall i :: 0 <= i < outcomes.Length ==>
                    outcomes[i] == if i < index then TurnedAway(b.files[i], b.allowed, b.maxBytes) else None
        invariant |pending| == |Pending(b.files, b.allowed, b.maxBytes, index)|
        invariant forall k :: 0 <= k < |pending| ==> pending[k] == Spooled(b, Pending(b.files, b.allowed, b.maxBytes, index)[k])
      {
        var file := b.files[index];
        var bare := BareType(RawType(file));
        if bare !in b.allowed {
          outcomes[index] := Some(Outcome(Name(file), bare, 0, RejectedContentType, None));
          continue;
        }
        var spool, total, tooLarge := SpoolBody(file.chunks, b.maxBytes);
        if tooLarge {
          outcomes[index] := Some(Outcome(Name(file), bare, total, TooLarge, None));
          continue;
        }
        if total == 0 {
          outcomes[index] := Some(Outcome(Name(file), bare, 0, Empty, None));
          continue;
        }
        pending := pending + [PendingWrite(index, spool, Name(file), RawType(file), bare, total)];
      }
    }

    /** The second loop: one catalog write per pending file, in order. A write that raises fills the slot all the same. */
    method WritePending(b: Batch, outcomes: array<Option<Outcome>>, pending: seq<PendingWrite>)
      requires IsShelf(shelf) && b.digest == digest && outcomes.Length == |b.files|
      requires |pending| == |Queue(b)| && forall k :: 0 <= k < |pending| ==> pending[k] == Spooled(b, Queue(b)[k])
      requires forall i :: 0 <= i < outcomes.Length ==> outcomes[i] == Slot(shelf, b, i, 0)
      modifies `shelf, outcomes
      ensures IsShelf(shelf) && shelf == WriteAll(old(shelf), b, |Queue(b)|)
      ensures forall i :: 0 <= i < outcomes.Length ==> outcomes[i] == Slot(old(shelf), b, i, |Queue(b)|)
    {
      hide Slot, Spooled, Queue, Rank, WriteAll, WrittenOutcome;
      ghost var start := shelf;
      NothingWritten(start, b);
      for k := 0 to |pending|
        invariant IsShelf(shelf) && shelf == WriteAll(start, b, k)
        invariant forall i :: 0 <= i < outcomes.Length ==> outcomes[i] == Slot(start, b, i, k)
      {
        ghost var before := outcomes[..];
        var p := pending[k];
        var outcome := WriteOne(b, p, start, k);
        NextSlot(start, b, k);
        outcomes[p.index] := Some(outcome);
        forall i | 0 <= i < outcomes.Length
          ensures outcomes[i] == Slot(start, b, i, k + 1)
        {
          if i != p.index {
            assert outcomes[i] == before[i] == Slot(start, b, i, k);
          }
        }
      }
    }

    method WriteOne(b: Batch, p: PendingWrite, ghost start: Shelf, ghost k: nat) returns (outcome: Outcome)
      requires IsShelf(start) && k < |Queue(b)| && p == Spooled(b, Queue(b)[k])
      requires IsShelf(shelf) && b.digest == digest && shelf == WriteAll(start, b, k)
      modifies `shelf
      ensures IsShelf(shelf) && shelf == WriteAll(start, b, k + 1)
      ensures outcome == WrittenOutcome(start, b, k)
    {
      hide Body, BareType, RawType, Name, Queue, MaxNumber;
      var blocks := IterChunks(p.spool, READ_CHUNK_SIZE);
      var version := UploadStream(None, p.filename, p.contentType, blocks, p.index in b.broken);
      if version.None? {
        return Outcome(p.filename, p.bare, p.total, Failed, None);
      }
      var isDuplicate := shelf.versions[version.value].status == L.DuplicateDetected;
      return Outcome(p.filename, p.bare, p.total, if isDuplicate then Duplicate else Uploaded, version);
    }

    /** `upload_documents_batch` for a request that is not a replay. */
    method UploadBatch(b: Batch) returns (reply: Reply)
      requires IsShelf(shelf) && b.digest == digest
      modifies `shelf
      ensures IsShelf(shelf)
      ensures reply.NoFiles? <==> b.files == []
      ensures shelf == if reply.NoFiles? then old(shelf) else WriteAll(old(shelf), b, |Queue(b)|)
      ensures reply.Report? ==>
                && |reply.results| == |b.files| == reply.summary.total
                && (forall i :: 0 <= i < |b.files| ==> reply.results[i] == Expected(old(shelf), b, i))
                && (forall i :: 0 <= i < |b.files| ==> Describes(b, i, reply.results[i]))
                && reply.summary == Summarized(reply.results)
    {
      hide Slot, Queue, Rank, WriteAll, WrittenOutcome, TurnedAway, Expected, Tally, Describes;
      if b.files == [] {
        return NoFiles;
      }
      ghost var start := shelf;
      var outcomes := new Option<Outcome>[|b.files|](_ => None);
      var pending := BufferFiles(b, outcomes);
      FirstSlots(start, b);
      WritePending(b, outcomes, pending);
      LastSlots(start, b);
      var materialised: seq<Outcome> := [];
      for i := 0 to outcomes.Length
        invariant |materialised| == i
        invariant forall j :: 0 <= j < i ==> materialised[j] == Expected(start, b, j)
      {
        if outcomes[i].Some? {
          materialised := materialised + [outcomes[i].value];
        }
      }
      forall i | 0 <= i < |b.files| {
        ResultMeans(start, b, i);
      }
      return Report(materialised, Summarized(materialised));
    }
  }
}
