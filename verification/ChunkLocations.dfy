/**
  The chunk listing of the PDF viewer: every parsed section joined with the best topic that cites it,
  through a sorted, first-wins index over all of the version's topics.
 */
module ChunkLocations {
  import opened Wrappers
  import opened Keyset

  const TOPICS_PAGE_LIMIT: nat := 50

  datatype Topic = Topic(documentId: int, versionId: int, topicLabel: string, summary: string, confidence: real, supportingChunks: seq<string>)

  /** A topic's key is (extracted_at, id). */
  type TopicRow = Row<Topic>

  datatype Rect = Rect(page: int, x: real, y: real, width: real, height: real)

  datatype SourceReference = SourceReference(id: string, pageNumber: Option<int>, rects: seq<Rect>)

  datatype Section = Section(id: string, heading: string, text: string, references: seq<string>)

  datatype ChunkSource = AiExtraction | Parser

  datatype ChunkLocation = ChunkLocation(
    chunkId: string, page: int, rects: seq<Rect>, heading: string, snippet: string,
    summary: Option<string>, topicId: Option<int>, topicLabel: Option<string>, source: ChunkSource, confidence: real)

  datatype Filters = Filters(page: Option<int>, source: Option<ChunkSource>, minConfidence: Option<real>)

  // ----- All topics of one version, across the store's pages -----

  function OfDocument(documentId: int): TopicRow -> bool {
    (t: TopicRow) => t.item.documentId == documentId
  }

  function OfVersion(versionId: int): TopicRow -> bool {
    (t: TopicRow) => t.item.versionId == versionId
  }

  function TopicsOf(store: seq<TopicRow>, documentId: int, versionId: int): seq<TopicRow> {
    Keep(Keep(SortByKey(store), OfDocument(documentId)), OfVersion(versionId))
  }

  /** One page of the walk: what was collected and what is still to come make up all topics of the version. */
  lemma PageCollects(rows: seq<TopicRow>, cursor: Cursor, v: int, collected: seq<TopicRow>)
    requires Ascending(rows) && collected + Keep(RowsAfter(rows, cursor), OfVersion(v)) == Keep(rows, OfVersion(v))
    ensures var (page, next) := Fetch(rows, cursor, TOPICS_PAGE_LIMIT);
            var more := collected + Keep(page, OfVersion(v));
            if next.None? then more == Keep(rows, OfVersion(v))
            else
              && more + Keep(RowsAfter(rows, next), OfVersion(v)) == Keep(rows, OfVersion(v))
              && |RowsAfter(rows, next)| < |RowsAfter(rows, cursor)|
  {
    var after := RowsAfter(rows, cursor);
    var (page, next) := Fetch(rows, cursor, TOPICS_PAGE_LIMIT);
    FetchSplits(rows, cursor, TOPICS_PAGE_LIMIT);
    assert after == page + after[|page|..];
    KeepConcat(page, after[|page|..], OfVersion(v));
    Regroup(collected, Keep(page, OfVersion(v)), Keep(after[|page|..], OfVersion(v)));
  }

  /** `_topics_for_version`: however many pages the store cuts its answer into, no topic is lost or repeated. */
  method TopicsForVersion(store: seq<TopicRow>, documentId: int, versionId: int) returns (collected: seq<TopicRow>)
    requires DistinctKeys(store)
    ensures collected == TopicsOf(store, documentId, versionId)
  {
    hide Fetch, RowsAfter, Ascending, Keep;
    var rows := Keep(SortByKey(store), OfDocument(documentId));
    assert Ascending(rows) by {
      SortAscending(store);
      KeepAscending(SortByKey(store), OfDocument(documentId));
    }
    collected := [];
    var cursor: Cursor := None;
    NothingCollected(rows, versionId);
    while true
      invariant collected + Keep(RowsAfter(rows, cursor), OfVersion(versionId)) == Keep(rows, OfVersion(versionId))
      decreases |RowsAfter(rows, cursor)|
    {
      PageCollects(rows, cursor, versionId, collected);
      var (page, next) := Fetch(rows, cursor, TOPICS_PAGE_LIMIT);
      collected := collected + Keep(page, OfVersion(versionId));
      cursor := next;
      if cursor.None? {
        break;
      }
    }
  }

  lemma NothingCollected(rows: seq<TopicRow>, v: int)
    ensures [] + Keep(RowsAfter(rows, None), OfVersion(v)) == Keep(rows, OfVersion(v))
  {
    KeepAll(rows, Later(None));
  }

  // ----- The best topic of a section -----

  lemma TopicsOfMean(store: seq<TopicRow>, documentId: int, versionId: int)
    requires DistinctKeys(store)
    ensures forall t :: t in TopicsOf(store, documentId, versionId) <==> t in store && t.item.documentId == documentId && t.item.versionId == versionId
    ensures Ascending(TopicsOf(store, documentId, versionId))
  {
    SortAscending(store);
    KeepAscending(SortByKey(store), OfDocument(documentId));
    KeepAscending(Keep(SortByKey(store), OfDocument(documentId)), OfVersion(versionId));
  }

  predicate Cites(t: TopicRow, chunk: string) {
    chunk in t.item.supportingChunks
  }

  /** The topic of maximal confidence among those citing the chunk, the earliest of several. */
  function Best(topics: seq<TopicRow>, chunk: string): Option<TopicRow> {
    if topics == [] then None
    else
      var rest, t := Best(topics[..|topics| - 1], chunk), topics[|topics| - 1];
      if Cites(t, chunk) && (rest.None? || t.item.confidence > rest.value.item.confidence) then Some(t) else rest
  }

  /** Topic i cites the chunk, none that cites it has a higher confidence, and none before it an equal one. */
  ghost predicate IsArgmax(topics: seq<TopicRow>, chunk: string, i: nat) {
    && i < |topics| && Cites(topics[i], chunk)
    && forall j :: 0 <= j < |topics| && Cites(topics[j], chunk) ==>
         topics[j].item.confidence <= topics[i].item.confidence
         && (j < i ==> topics[j].item.confidence < topics[i].item.confidence)
  }

  lemma {:induction false} BestIsArgmax(topics: seq<TopicRow>, chunk: string)
    ensures Best(topics, chunk).None? <==> forall j :: 0 <= j < |topics| ==> !Cites(topics[j], chunk)
    ensures Best(topics, chunk).Some? ==>
              exists i :: 0 <= i < |topics| && topics[i] == Best(topics, chunk).value && IsArgmax(topics, chunk, i)
  {
    if topics != [] {
      var n := |topics| - 1;
      var rest := topics[..n];
      BestIsArgmax(rest, chunk);
      assert forall j :: 0 <= j < n ==> topics[j] == rest[j];
      if Best(topics, chunk).Some? {
        if Best(topics, chunk) == Best(rest, chunk) {
          var i :| 0 <= i < n && rest[i] == Best(rest, chunk).value && IsArgmax(rest, chunk, i);
          assert topics[i] == Best(topics, chunk).value && IsArgmax(topics, chunk, i);
        } else {
          assert topics[n] == Best(topics, chunk).value && IsArgmax(topics, chunk, n);
        }
      }
    }
  }

  // ----- The index: a stable sort, then the first citing topic wins -----

  /** Inserts t behind everything at least as confident. */
  function InsertByConfidence(sorted: seq<TopicRow>, t: TopicRow): seq<TopicRow> {
    if sorted == [] || sorted[|sorted| - 1].item.confidence >= t.item.confidence then sorted + [t]
    else InsertByConfidence(sorted[..|sorted| - 1], t) + [sorted[|sorted| - 1]]
  }

  /** The stable `sort(key=lambda t: t.confidence, reverse=True)`. */
  function SortByConfidence(topics: seq<TopicRow>): seq<TopicRow> {
    if topics == [] then []
    else InsertByConfidence(SortByConfidence(topics[..|topics| - 1]), topics[|topics| - 1])
  }

  predicate AtLeast(topics: seq<TopicRow>, confidence: real) {
    forall i :: 0 <= i < |topics| ==> topics[i].item.confidence >= confidence
  }

  predicate Descending(topics: seq<TopicRow>) {
    topics == []
    || (AtLeast(topics[..|topics| - 1], topics[|topics| - 1].item.confidence) && Descending(topics[..|topics| - 1]))
  }

  function FirstCiting(topics: seq<TopicRow>, chunk: string): (r: Option<TopicRow>)
    ensures r.Some? ==> r.value in topics && Cites(r.value, chunk)
  {
    if topics == [] then None
    else
      var first, t := FirstCiting(topics[..|topics| - 1], chunk), topics[|topics| - 1];
      if first.Some? then first else if Cites(t, chunk) then Some(t) else None
  }

  lemma LastIsLowest(sorted: seq<TopicRow>, confidence: real)
    requires Descending(sorted) && (sorted != [] ==> sorted[|sorted| - 1].item.confidence >= confidence)
    ensures AtLeast(sorted, confidence)
  {
    forall i | 0 <= i < |sorted| - 1
      ensures sorted[i].item.confidence >= confidence
    {
      assert sorted[i] == sorted[..|sorted| - 1][i];
    }
  }

  lemma AppendDescends(sorted: seq<TopicRow>, t: TopicRow, floor: real)
    requires Descending(sorted) && AtLeast(sorted, t.item.confidence)
    ensures Descending(sorted + [t])
    ensures AtLeast(sorted, floor) && t.item.confidence >= floor ==> AtLeast(sorted + [t], floor)
  {
    assert (sorted + [t])[..|sorted|] == sorted;
  }

  lemma LowerFloor(sorted: seq<TopicRow>, topics: seq<TopicRow>, floor: real)
    requires sorted != [] && AtLeast(sorted, floor) && AtLeast(topics, sorted[|sorted| - 1].item.confidence)
    ensures AtLeast(topics, floor) && sorted[|sorted| - 1].item.confidence >= floor
  {
  }

  lemma {:induction false} InsertDescends(sorted: seq<TopicRow>, t: TopicRow, floor: real)
    requires Descending(sorted) && AtLeast(sorted, floor) && t.item.confidence >= floor
    ensures Descending(InsertByConfidence(sorted, t)) && AtLeast(InsertByConfidence(sorted, t), floor)
  {
    hide AtLeast;
    var n := |sorted| - 1;
    if sorted == [] || sorted[n].item.confidence >= t.item.confidence {
      LastIsLowest(sorted, t.item.confidence);
      AppendDescends(sorted, t, floor);
    } else {
      InsertDescends(sorted[..n], t, sorted[n].item.confidence);
      LowerFloor(sorted, InsertByConfidence(sorted[..n], t), floor);
      AppendDescends(InsertByConfidence(sorted[..n], t), sorted[n], floor);
    }
  }

  lemma {:induction false} SortDescends(topics: seq<TopicRow>)
    ensures Descending(SortByConfidence(topics))
  {
    if topics != [] {
      var n := |topics| - 1;
      SortDescends(topics[..n]);
      var sorted, t := SortByConfidence(topics[..n]), topics[n];
      InsertDescends(sorted, t, LowerBound(sorted, t.item.confidence));
    }
  }

  lemma {:induction false} SortPermutes(topics: seq<TopicRow>)
    ensures multiset(SortByConfidence(topics)) == multiset(topics)
  {
    hide InsertByConfidence;
    if topics != [] {
      var n := |topics| - 1;
      SortPermutes(topics[..n]);
      InsertPermutes(SortByConfidence(topics[..n]), topics[n]);
      assert topics == topics[..n] + [topics[n]];
    }
  }

  function LowerBound(topics: seq<TopicRow>, start: real): (r: real)
    ensures AtLeast(topics, r) && r <= start
  {
    if topics == [] then start
    else
      var rest, c := LowerBound(topics[..|topics| - 1], start), topics[|topics| - 1].item.confidence;
      if c < rest then c else rest
  }

  lemma {:induction false} InsertPermutes(sorted: seq<TopicRow>, t: TopicRow)
    ensures multiset(InsertByConfidence(sorted, t)) == multiset(sorted) + multiset{t}
  {
    var n := |sorted| - 1;
    if sorted != [] && sorted[n].item.confidence < t.item.confidence {
      InsertPermutes(sorted[..n], t);
      assert sorted == sorted[..n] + [sorted[n]];
    }
  }

  lemma {:induction false} FirstCitingOfInsert(sorted: seq<TopicRow>, t: TopicRow, chunk: string)
    requires Descending(sorted)
    ensures FirstCiting(InsertByConfidence(sorted, t), chunk) ==
              var first := FirstCiting(sorted, chunk);
              if Cites(t, chunk) && (first.None? || t.item.confidence > first.value.item.confidence) then Some(t) else first
  {
    var n := |sorted| - 1;
    if sorted == [] || sorted[n].item.confidence >= t.item.confidence {
      assert (sorted + [t])[..n + 1] == sorted;
      if sorted != [] {
        assert forall i :: 0 <= i < n ==> sorted[i] == sorted[..n][i];
        assert AtLeast(sorted, sorted[n].item.confidence);
      }
    } else {
      FirstCitingOfInsert(sorted[..n], t, chunk);
      var longer := InsertByConfidence(sorted[..n], t) + [sorted[n]];
      assert longer[..|longer| - 1] == InsertByConfidence(sorted[..n], t);
    }
  }

  /** The sorted, first-wins index gives each section a topic of maximal confidence, ties to the earliest in store order. */
  lemma {:induction false} FirstCitingIsBest(topics: seq<TopicRow>, chunk: string)
    ensures FirstCiting(SortByConfidence(topics), chunk) == Best(topics, chunk)
  {
    if topics != [] {
      var n := |topics| - 1;
      FirstCitingIsBest(topics[..n], chunk);
      SortDescends(topics[..n]);
      FirstCitingOfInsert(SortByConfidence(topics[..n]), topics[n], chunk);
    }
  }

  function Lookup<V>(index: map<string, V>, key: string): Option<V> {
    if key in index then Some(index[key]) else None
  }

  /** Fills the index with `setdefault`, topic by topic in descending confidence. */
  method IndexTopics(topics: seq<TopicRow>) returns (topicByChunk: map<string, TopicRow>)
    ensures forall chunk :: Lookup(topicByChunk, chunk) == Best(topics, chunk)
  {
    hide SortByConfidence, Best, FirstCiting, Cites;
    var sorted := SortByConfidence(topics);
    topicByChunk := map[];
    for n := 0 to |sorted|
      invariant forall chunk :: Lookup(topicByChunk, chunk) == FirstCiting(sorted[..n], chunk)
    {
      topicByChunk := IndexTopic(topicByChunk, sorted[n]);
      forall chunk
        ensures Lookup(topicByChunk, chunk) == FirstCiting(sorted[..n + 1], chunk)
      {
        FirstCitingNext(sorted, n, chunk);
      }
    }
    assert sorted[..|sorted|] == sorted;
    forall chunk {
      FirstCitingIsBest(topics, chunk);
    }
  }

  lemma FirstCitingNext(sorted: seq<TopicRow>, n: nat, chunk: string)
    requires n < |sorted|
    ensures FirstCiting(sorted[..n + 1], chunk) ==
              var first := FirstCiting(sorted[..n], chunk);
              if first.Some? then first else if Cites(sorted[n], chunk) then Some(sorted[n]) else None
  {
    assert sorted[..n + 1][..n] == sorted[..n];
  }

  /** The inner loop: the topic takes the chunks it cites that no earlier topic took. */
  method IndexTopic(before: map<string, TopicRow>, topic: TopicRow) returns (after: map<string, TopicRow>)
    ensures forall chunk :: Lookup(after, chunk) ==
              if chunk in before then Some(before[chunk]) else if Cites(topic, chunk) then Some(topic) else None
  {
    after := before;
    var chunks := topic.item.supportingChunks;
    for j := 0 to |chunks|
      invariant forall chunk :: Lookup(after, chunk) ==
                  if chunk in before then Some(before[chunk]) else if chunk in chunks[..j] then Some(topic) else None
    {
      assert chunks[..j + 1] == chunks[..j] + [chunks[j]];
      if chunks[j] !in after {
        after := after[chunks[j] := topic];
      }
    }
    assert chunks[..|chunks|] == chunks;
  }

  // ----- Where a section is -----

  /** Of references sharing an id the last one counts, as in a dict comprehension. */
  function Resolve(references: seq<SourceReference>, id: string): Option<SourceReference> {
    if references == [] then None
    else if references[|references| - 1].id == id then Some(references[|references| - 1])
    else Resolve(references[..|references| - 1], id)
  }

  method ReferencesById(references: seq<SourceReference>) returns (byId: map<string, SourceReference>)
    ensures forall id :: Lookup(byId, id) == Resolve(references, id)
  {
    byId := map[];
    for n := 0 to |references|
      invariant forall id :: Lookup(byId, id) == Resolve(references[..n], id)
    {
      assert references[..n + 1][..n] == references[..n];
      byId := byId[references[n].id := references[n]];
    }
    assert references[..|references|] == references;
  }

  /** The rectangles of the section's first n references; dangling references are skipped. */
  function RectsOf(section: Section, references: seq<SourceReference>, n: nat): seq<Rect>
    requires n <= |section.references|
  {
    if n == 0 then []
    else
      var r := Resolve(references, section.references[n - 1]);
      RectsOf(section, references, n - 1) + if r.Some? then r.value.rects else []
  }

  /** The page number of the first of them that has one. */
  function NumberedPage(section: Section, references: seq<SourceReference>, n: nat): Option<int>
    requires n <= |section.references|
  {
    if n == 0 then None
    else
      var earlier, r := NumberedPage(section, references, n - 1), Resolve(references, section.references[n - 1]);
      if earlier.Some? then earlier else if r.Some? then r.value.pageNumber else None
  }

  function PageOf(section: Section, references: seq<SourceReference>): int {
    var rects, numbered := RectsOf(section, references, |section.references|), NumberedPage(section, references, |section.references|);
    if numbered.Some? then numbered.value else if rects != [] then rects[0].page else 1
  }

  method Locate(section: Section, byId: map<string, SourceReference>, ghost references: seq<SourceReference>)
    returns (rects: seq<Rect>, page: int)
    requires forall id :: Lookup(byId, id) == Resolve(references, id)
    ensures rects == RectsOf(section, references, |section.references|) && page == PageOf(section, references)
  {
    hide Resolve;
    rects := [];
    var sectionPage: Option<int> := None;
    for n := 0 to |section.references|
      invariant rects == RectsOf(section, references, n) && sectionPage == NumberedPage(section, references, n)
    {
      var reference := Lookup(byId, section.references[n]);
      if reference.None? {
        continue;
      }
      rects := rects + reference.value.rects;
      if sectionPage.None? && reference.value.pageNumber.Some? {
        sectionPage := reference.value.pageNumber;
      }
    }
    if sectionPage.None? && rects != [] {
      sectionPage := Some(rects[0].page);
    }
    if sectionPage.None? {
      sectionPage := Some(1);
    }
    page := sectionPage.value;
  }

  // ----- The listing -----

  function Snippet(text: string): string {
    if |text| <= 240 then text else text[..240]
  }

  /** The row of a section, given the topic that speaks for it. */
  function RowFor(section: Section, rects: seq<Rect>, page: int, topic: Option<TopicRow>): ChunkLocation {
    match topic
    case Some(t) => ChunkLocation(section.id, page, rects, section.heading, Snippet(section.text), Some(t.item.summary), Some(t.key.id),
                                  Some(t.item.topicLabel), AiExtraction, t.item.confidence)
    case None => ChunkLocation(section.id, page, rects, section.heading, Snippet(section.text), None, None, None, Parser, 1.0)
  }

  /** The naive join: each section, in reading order, with the best of all the topics. */
  function Joined(sections: seq<Section>, references: seq<SourceReference>, topics: seq<TopicRow>): (r: seq<ChunkLocation>)
    ensures |r| == |sections|
    ensures forall i :: 0 <= i < |r| ==> r[i] == JoinedRow(sections[i], references, topics)
  {
    seq(|sections|, i requires 0 <= i < |sections| => JoinedRow(sections[i], references, topics))
  }

  function JoinedRow(section: Section, references: seq<SourceReference>, topics: seq<TopicRow>): ChunkLocation {
    RowFor(section, RectsOf(section, references, |section.references|), PageOf(section, references), Best(topics, section.id))
  }

  /** A row in terms of its section and the topics: the best citing topic's data, or none and the parser's confidence 1. */
  ghost predicate Describes(section: Section, references: seq<SourceReference>, topics: seq<TopicRow>, row: ChunkLocation) {
    && row.chunkId == section.id && row.heading == section.heading
    && row.rects == RectsOf(section, references, |section.references|) && row.page == PageOf(section, references)
    && |row.snippet| == (if |section.text| < 240 then |section.text| else 240) && row.snippet <= section.text
    && (if exists i :: 0 <= i < |topics| && section.id in topics[i].item.supportingChunks
        then exists i: nat :: IsArgmax(topics, section.id, i) && FromTopic(topics[i], row)
        else row.summary == None && row.topicId == None && row.topicLabel == None && row.source == Parser && row.confidence == 1.0)
  }

  predicate FromTopic(t: TopicRow, row: ChunkLocation) {
    && row.summary == Some(t.item.summary) && row.topicId == Some(t.key.id) && row.topicLabel == Some(t.item.topicLabel)
    && row.source == AiExtraction && row.confidence == t.item.confidence
  }

  lemma RowMeans(section: Section, references: seq<SourceReference>, topics: seq<TopicRow>)
    ensures Describes(section, references, topics, JoinedRow(section, references, topics))
  {
    hide Best, RectsOf, PageOf, IsArgmax;
    BestIsArgmax(topics, section.id);
  }

  /** The rectangles are those of the references in order, each looked up under its id, the last of equal ids. */
  lemma {:induction false} ResolveMeans(references: seq<SourceReference>, id: string)
    ensures Resolve(references, id).None? <==> forall i :: 0 <= i < |references| ==> references[i].id != id
    ensures forall i :: 0 <= i < |references| && references[i].id == id && (forall k :: i < k < |references| ==> references[k].id != id) ==>
              Resolve(references, id) == Some(references[i])
  {
    if references != [] {
      ResolveMeans(references[..|references| - 1], id);
    }
  }

  lemma {:induction false} RectsInOrder(section: Section, references: seq<SourceReference>, m: nat, n: nat)
    requires m <= n <= |section.references|
    ensures RectsOf(section, references, m) <= RectsOf(section, references, n)
    ensures m < n && Resolve(references, section.references[m]).Some? ==>
              RectsOf(section, references, m) + Resolve(references, section.references[m]).value.rects <= RectsOf(section, references, n)
    ensures m == n - 1 && Resolve(references, section.references[m]).None? ==> RectsOf(section, references, n) == RectsOf(section, references, m)
  {
    hide Resolve;
    if m < n {
      RectsInOrder(section, references, m, n - 1);
    }
  }

  /** The page is that of the first reference with a number, else that of the first rectangle, else 1. */
  lemma PageMeans(section: Section, references: seq<SourceReference>)
    ensures forall i :: 0 <= i < |section.references| && FirstNumbered(section, references, i) ==>
              Some(PageOf(section, references)) == Resolve(references, section.references[i]).value.pageNumber
    ensures (forall i :: 0 <= i < |section.references| ==> !Numbered(section, references, i)) ==>
              var rects := RectsOf(section, references, |section.references|);
              PageOf(section, references) == if rects == [] then 1 else rects[0].page
  {
    hide Resolve, RectsOf;
    NumberedMeans(section, references, |section.references|);
  }

  predicate Numbered(section: Section, references: seq<SourceReference>, i: nat)
    requires i < |section.references|
  {
    Resolve(references, section.references[i]).Some? && Resolve(references, section.references[i]).value.pageNumber.Some?
  }

  predicate FirstNumbered(section: Section, references: seq<SourceReference>, i: nat)
    requires i < |section.references|
  {
    Numbered(section, references, i) && forall k :: 0 <= k < i ==> !Numbered(section, references, k)
  }

  lemma {:induction false} NumberedMeans(section: Section, references: seq<SourceReference>, n: nat)
    requires n <= |section.references|
    ensures (forall i :: 0 <= i < n ==> !Numbered(section, references, i)) ==> NumberedPage(section, references, n) == None
    ensures forall i :: 0 <= i < n && FirstNumbered(section, references, i) ==>
              NumberedPage(section, references, n) == Resolve(references, section.references[i]).value.pageNumber
  {
    hide Resolve;
    if n > 0 {
      NumberedMeans(section, references, n - 1);
      assert Numbered(section, references, n - 1) || !Numbered(section, references, n - 1);
    }
  }

  predicate Passes(filters: Filters, row: ChunkLocation) {
    && (filters.page.Some? ==> row.page == filters.page.value)
    && (filters.source.Some? ==> row.source == filters.source.value)
    && (filters.minConfidence.Some? ==> row.confidence >= filters.minConfidence.value)
  }

  function Passing(filters: Filters): ChunkLocation -> bool {
    (row: ChunkLocation) => Passes(filters, row)
  }

  /**
    `list_document_chunks`: the first `limit` rows of the filtered naive join over all topics of the version,
    although the topics arrive page by page and are looked up through the sorted, first-wins index.
   */
  method ListDocumentChunks(sections: seq<Section>, references: seq<SourceReference>, store: seq<TopicRow>,
                            documentId: int, versionId: int, filters: Filters, limit: nat)
    returns (items: seq<ChunkLocation>)
    requires DistinctKeys(store) && limit >= 1
    ensures items == Take(Keep(Joined(sections, references, TopicsOf(store, documentId, versionId)), Passing(filters)), limit)
    ensures forall row :: row in items ==> Selected(filters, row)
    ensures forall i :: 0 <= i < |sections| ==>
              var row := JoinedRow(sections[i], references, TopicsOf(store, documentId, versionId));
              |items| < limit && Selected(filters, row) ==> row in items
  {
    hide TopicsOf, Joined, JoinedRow, Keep, Best, Resolve, RectsOf, PageOf, Passing, Selected;
    ItemsMean(sections, references, TopicsOf(store, documentId, versionId), filters, limit);
    var topics := TopicsForVersion(store, documentId, versionId);
    var topicByChunk := IndexTopics(topics);
    var byId := ReferencesById(references);
    ghost var rows, p := Joined(sections, references, topics), Passing(filters);
    items := [];
    KeepEnds(rows, p);
    assert [] + Keep(rows, p) == Keep(rows, p);
    for n := 0 to |sections|
      invariant items + Keep(rows[n..], p) == Keep(rows, p)
      invariant |items| < limit
    {
      var rects, page := Locate(sections[n], byId, references);
      var row := RowFor(sections[n], rects, page, Lookup(topicByChunk, sections[n].id));
      NextRow(sections, references, topics, filters, n, items);
      if filters.page.Some? && row.page != filters.page.value {
        continue;
      }
      if filters.source.Some? && row.source != filters.source.value {
        continue;
      }
      if filters.minConfidence.Some? && row.confidence < filters.minConfidence.value {
        continue;
      }
      items := items + [row];
      if |items| >= limit {
        assert Keep(rows, p)[..limit] == items;
        return;
      }
    }
  }

  /** The filters that are given hold of the row; confidence must reach the least one asked for. */
  predicate Selected(filters: Filters, row: ChunkLocation) {
    && (filters.page.None? || filters.page == Some(row.page)) && (filters.source.None? || filters.source == Some(row.source))
    && (filters.minConfidence.None? || filters.minConfidence.value <= row.confidence)
  }

  lemma ItemsMean(sections: seq<Section>, references: seq<SourceReference>, topics: seq<TopicRow>, filters: Filters, limit: nat)
    ensures var items := Take(Keep(Joined(sections, references, topics), Passing(filters)), limit);
            && (forall row :: row in items ==> Selected(filters, row))
            && forall i :: 0 <= i < |sections| ==>
                 var row := JoinedRow(sections[i], references, topics);
                 |items| < limit && Selected(filters, row) ==> row in items
  {
    hide JoinedRow, Keep;
    var rows := Joined(sections, references, topics);
    forall i | 0 <= i < |sections|
      ensures JoinedRow(sections[i], references, topics) in rows
    {
      assert rows[i] in rows;
    }
    var kept := Keep(rows, Passing(filters));
    assert forall row :: row in Take(kept, limit) ==> row in kept;
  }

  lemma NextRow(sections: seq<Section>, references: seq<SourceReference>, topics: seq<TopicRow>, filters: Filters, n: nat,
                items: seq<ChunkLocation>)
    requires n < |sections|
    requires var rows := Joined(sections, references, topics);
             items + Keep(rows[n..], Passing(filters)) == Keep(rows, Passing(filters))
    ensures var rows, p := Joined(sections, references, topics), Passing(filters);
            var row := RowFor(sections[n], RectsOf(sections[n], references, |sections[n].references|), PageOf(sections[n], references),
                              Best(topics, sections[n].id));
            && (if Passes(filters, row) then items + [row] else items) + Keep(rows[n + 1..], p) == Keep(rows, p)
  {
    hide Keep, Best, RectsOf, PageOf, RowFor, Passes;
    KeepStep(Joined(sections, references, topics), n, Passing(filters), items);
  }
}
