/**
  The scope filter over one page of the knowledge graph: nodes of documents out of the caller's reach are dropped,
  and with them every edge on the page that touches one.
 */
module GraphPage {
  import opened Wrappers
  import opened Keyset

  /** The `document_id` property of a node; only a non-empty string ties the node to a document. */
  datatype Property = Absent | Text(value: string) | OtherValue

  datatype Node = Node(id: string, document: Property)

  datatype Edge = Edge(id: string, source: string, target: string)

  datatype Page = Page(nodes: seq<Node>, edges: seq<Edge>, nextCursor: Option<string>, omittedByScope: nat)

  predicate Tied(n: Node) {
    n.document.Text? && n.document.value != ""
  }

  /**
    The verdict that counts for a document: that of the one access check made for it. `access` may answer
    differently from call to call, as others change the scope links meanwhile.
   */
  function Verdict(access: (string, nat) -> bool, calls: seq<string>, d: string): bool {
    access(d, FirstIndex(calls, d))
  }

  function Visible(access: (string, nat) -> bool, calls: seq<string>): Node -> bool {
    (n: Node) => Tied(n) ==> Verdict(access, calls, n.document.value)
  }

  /** The ids of the dropped nodes. */
  function Omitted(nodes: seq<Node>, p: Node -> bool): set<string> {
    set n | n in nodes && !p(n) :: n.id
  }

  function Untouched(omitted: set<string>): Edge -> bool {
    (e: Edge) => e.source !in omitted && e.target !in omitted
  }

  predicate NoRepeats(calls: seq<string>) {
    forall k :: 0 <= k < |calls| ==> FirstIndex(calls, calls[k]) == k
  }

  /** The documents asked for are those some node among the first n is tied to, each asked for once. */
  ghost predicate AsksOnce(calls: seq<string>, nodes: seq<Node>, n: nat)
    requires n <= |nodes|
  {
    NoRepeats(calls) && forall d :: d in calls <==> exists i :: 0 <= i < n && Tied(nodes[i]) && nodes[i].document.value == d
  }

  lemma AskedOnceMore(calls: seq<string>, d: string)
    requires NoRepeats(calls) && d !in calls
    ensures NoRepeats(calls + [d]) && FirstIndex(calls + [d], d) == |calls|
    ensures forall c :: c in calls ==> FirstIndex(calls + [d], c) == FirstIndex(calls, c)
  {
    hide FirstIndex;
    var more := calls + [d];
    forall c
      ensures c in calls ==> FirstIndex(more, c) == FirstIndex(calls, c)
    {
      var k, m := FirstIndex(calls, c), FirstIndex(more, c);
      assert k < |calls| ==> more[k] == c;
      assert m < |calls| ==> more[m] == calls[m];
    }
    assert more[|calls|] == d && FirstIndex(more, d) >= |calls|;
    forall k | 0 <= k < |calls|
      ensures FirstIndex(more, more[k]) == k
    {
      assert more[k] == calls[k] && calls[k] in calls && FirstIndex(calls, calls[k]) == k;
    }
  }

  /** The cache holds the verdict of every document asked for. */
  predicate Cached(cache: map<string, bool>, calls: seq<string>, access: (string, nat) -> bool) {
    && NoRepeats(calls)
    && (forall c :: c in calls ==> c in cache)
    && (forall c :: c in cache ==> c in calls && cache[c] == Verdict(access, calls, c))
  }

  /** The access check behind its cache. `calls` are the documents the catalog has been asked about so far. */
  method CanSee(cache: map<string, bool>, calls: seq<string>, d: string, access: (string, nat) -> bool)
    returns (verdict: bool, known: map<string, bool>, asked: seq<string>)
    requires Cached(cache, calls, access)
    ensures asked == (if d in calls then calls else calls + [d]) && Cached(known, asked, access)
    ensures verdict == Verdict(access, asked, d)
    ensures forall c :: c in calls ==> Verdict(access, asked, c) == Verdict(access, calls, c)
  {
    hide NoRepeats, FirstIndex;
    if d in cache {
      return cache[d], cache, calls;
    }
    AskedOnceMore(calls, d);
    verdict := access(d, |calls|);
    known, asked := cache[d := verdict], calls + [d];
  }

  /** `_filter_graph_page_by_scope`. */
  method FilterByScope(page: Page, access: (string, nat) -> bool) returns (filtered: Page, calls: seq<string>)
    ensures AsksOnce(calls, page.nodes, |page.nodes|)
    ensures filtered.nodes == Keep(page.nodes, Visible(access, calls))
    ensures filtered.edges == Keep(page.edges, Untouched(Omitted(page.nodes, Visible(access, calls))))
    ensures filtered.nextCursor == page.nextCursor
    ensures filtered.omittedByScope == |Omitted(page.nodes, Visible(access, calls))|
    ensures (forall i, j :: 0 <= i < j < |calls| ==> calls[i] != calls[j])
         && forall d :: d in calls <==> d != "" && exists n :: n in page.nodes && n.document == Text(d)
    ensures forall n :: n in filtered.nodes <==> n in page.nodes && (n.document.Text? && n.document.value != "" ==> Granted(access, calls, n.document.value))
    ensures forall e :: e in filtered.edges <==>
              e in page.edges && forall n :: n in page.nodes && (n.id == e.source || n.id == e.target) ==> n in filtered.nodes
    ensures filtered.omittedByScope == |set n | n in page.nodes && n !in filtered.nodes :: n.id|
  {
    hide Keep, Omitted, Verdict, NoRepeats, AsksOnce, Cached, Granted;
    var nodes := page.nodes;
    var cache: map<string, bool> := map[];
    calls := [];
    var visible: seq<Node>, omitted: set<string> := [], {};
    NothingKept(nodes, Visible(access, calls));
    NothingAsked(nodes, access);
    for n := 0 to |nodes|
      invariant AsksOnce(calls, nodes, n) && Cached(cache, calls, access)
      invariant visible == Keep(nodes[..n], Visible(access, calls)) && omitted == Omitted(nodes[..n], Visible(access, calls))
    {
      var node := nodes[n];
      ghost var before := calls;
      var seen := true;
      if Tied(node) {
        seen, cache, calls := CanSee(cache, calls, node.document.value, access);
      }
      AsksNext(before, nodes, n, cache, calls, access);
      SameVerdicts(nodes, n, access, before, calls);
      KeepNext(nodes, n, Visible(access, calls));
      if !seen {
        omitted := omitted + {node.id};
        continue;
      }
      visible := visible + [node];
    }
    assert nodes[..|nodes|] == nodes;
    var edges := Keep(page.edges, Untouched(omitted));
    filtered := Page(visible, edges, page.nextCursor, |omitted|);
    PageMeans(page, access, filtered, calls);
  }

  /** The document was asked about, and the answer was yes. */
  predicate Granted(access: (string, nat) -> bool, calls: seq<string>, d: string) {
    exists k :: 0 <= k < |calls| && calls[k] == d && access(d, k)
  }

  lemma PageMeans(page: Page, access: (string, nat) -> bool, filtered: Page, calls: seq<string>)
    requires AsksOnce(calls, page.nodes, |page.nodes|)
    requires filtered.nodes == Keep(page.nodes, Visible(access, calls))
    requires filtered.edges == Keep(page.edges, Untouched(Omitted(page.nodes, Visible(access, calls))))
    requires filtered.omittedByScope == |Omitted(page.nodes, Visible(access, calls))|
    ensures (forall i, j :: 0 <= i < j < |calls| ==> calls[i] != calls[j])
         && forall d :: d in calls <==> d != "" && exists n :: n in page.nodes && n.document == Text(d)
    ensures forall n :: n in filtered.nodes <==> n in page.nodes && (n.document.Text? && n.document.value != "" ==> Granted(access, calls, n.document.value))
    ensures forall e :: e in filtered.edges <==>
              e in page.edges && forall n :: n in page.nodes && (n.id == e.source || n.id == e.target) ==> n in filtered.nodes
    ensures filtered.omittedByScope == |set n | n in page.nodes && n !in filtered.nodes :: n.id|
  {
    hide Keep, Untouched, Omitted, Verdict, Granted;
    assert forall k :: 0 <= k < |calls| ==> FirstIndex(calls, calls[k]) == k;
    AskedMeans(calls, page.nodes);
    forall n | n in page.nodes {
      VerdictMeans(access, calls, page.nodes, n);
    }
    forall e | e in page.edges {
      EdgeSurvivesWithItsEnds(page, Visible(access, calls), e);
    }
    OmittedMeans(page.nodes, Visible(access, calls));
  }

  lemma AskedMeans(calls: seq<string>, nodes: seq<Node>)
    requires AsksOnce(calls, nodes, |nodes|)
    ensures forall d :: d in calls <==> d != "" && exists n :: n in nodes && n.document == Text(d)
  {
    forall d
      ensures d in calls <==> d != "" && exists n :: n in nodes && n.document == Text(d)
    {
      if d in calls {
        var i :| 0 <= i < |nodes| && Tied(nodes[i]) && nodes[i].document.value == d;
        assert nodes[i] in nodes && nodes[i].document == Text(d);
      }
      if d != "" && exists n :: n in nodes && n.document == Text(d) {
        var n :| n in nodes && n.document == Text(d);
        var i :| 0 <= i < |nodes| && nodes[i] == n;
        assert Tied(nodes[i]) && nodes[i].document.value == d;
      }
    }
  }

  lemma VerdictMeans(access: (string, nat) -> bool, calls: seq<string>, nodes: seq<Node>, n: Node)
    requires AsksOnce(calls, nodes, |nodes|) && n in nodes
    ensures Visible(access, calls)(n) <==> (n.document.Text? && n.document.value != "" ==> Granted(access, calls, n.document.value))
  {
    if n.document.Text? && n.document.value != "" {
      var i :| 0 <= i < |nodes| && nodes[i] == n;
      assert Tied(nodes[i]) && nodes[i].document.value in calls;
      var k := FirstIndex(calls, n.document.value);
      assert calls[k] == n.document.value;
      assert forall m :: 0 <= m < |calls| && calls[m] == n.document.value ==> FirstIndex(calls, calls[m]) == m;
    }
  }

  lemma OmittedMeans(nodes: seq<Node>, p: Node -> bool)
    ensures Omitted(nodes, p) == set n | n in nodes && n !in Keep(nodes, p) :: n.id
  {
  }

  lemma NothingAsked(nodes: seq<Node>, access: (string, nat) -> bool)
    ensures AsksOnce([], nodes, 0) && Cached(map[], [], access)
  {
  }

  lemma NothingKept(nodes: seq<Node>, p: Node -> bool)
    ensures Keep(nodes[..0], p) == [] && Omitted(nodes[..0], p) == {}
  {
  }

  lemma AsksNext(before: seq<string>, nodes: seq<Node>, n: nat, cache: map<string, bool>, after: seq<string>,
                 access: (string, nat) -> bool)
    requires n < |nodes| && AsksOnce(before, nodes, n) && Cached(cache, after, access)
    requires after == if Tied(nodes[n]) && nodes[n].document.value !in before then before + [nodes[n].document.value] else before
    ensures AsksOnce(after, nodes, n + 1)
  {
    hide NoRepeats, Verdict;
    forall d | d in after
      ensures exists i :: 0 <= i < n + 1 && Tied(nodes[i]) && nodes[i].document.value == d
    {
      if d in before {
        var i :| 0 <= i < n && Tied(nodes[i]) && nodes[i].document.value == d;
      } else {
        assert Tied(nodes[n]) && nodes[n].document.value == d;
      }
    }
    forall i | 0 <= i < n + 1 && Tied(nodes[i])
      ensures nodes[i].document.value in after
    {
      if i < n {
        assert nodes[i].document.value in before;
      }
    }
  }

  /** Later checks do not change what earlier nodes were told. */
  lemma SameVerdicts(nodes: seq<Node>, n: nat, access: (string, nat) -> bool, before: seq<string>, after: seq<string>)
    requires n <= |nodes| && AsksOnce(before, nodes, n)
    requires forall c :: c in before ==> Verdict(access, after, c) == Verdict(access, before, c)
    ensures Keep(nodes[..n], Visible(access, after)) == Keep(nodes[..n], Visible(access, before))
    ensures Omitted(nodes[..n], Visible(access, after)) == Omitted(nodes[..n], Visible(access, before))
  {
    hide Verdict, NoRepeats, Keep;
    var p, q := Visible(access, after), Visible(access, before);
    forall i | 0 <= i < n
      ensures p(nodes[..n][i]) == q(nodes[..n][i])
    {
      assert nodes[..n][i] == nodes[i];
      assert Tied(nodes[i]) ==> nodes[i].document.value in before;
    }
    SameKeep(nodes[..n], p, q);
    assert forall x :: x in nodes[..n] ==> p(x) == q(x);
  }

  lemma {:induction false} SameKeep(nodes: seq<Node>, p: Node -> bool, q: Node -> bool)
    requires forall i :: 0 <= i < |nodes| ==> p(nodes[i]) == q(nodes[i])
    ensures Keep(nodes, p) == Keep(nodes, q)
  {
    if nodes != [] {
      SameKeep(nodes[1..], p, q);
    }
  }

  lemma KeepNext(nodes: seq<Node>, n: nat, p: Node -> bool)
    requires n < |nodes|
    ensures Keep(nodes[..n + 1], p) == if p(nodes[n]) then Keep(nodes[..n], p) + [nodes[n]] else Keep(nodes[..n], p)
    ensures Omitted(nodes[..n + 1], p) == if p(nodes[n]) then Omitted(nodes[..n], p) else Omitted(nodes[..n], p) + {nodes[n].id}
  {
    assert nodes[..n + 1] == nodes[..n] + [nodes[n]];
    KeepConcat(nodes[..n], [nodes[n]], p);
    assert Keep([nodes[n]][1..], p) == [];
  }

  /**
    An edge of the page survives if and only if every node of the page at either of its ends survives. An end that
    lies on another page does not count, so an edge to a node hidden there is kept.
   */
  lemma EdgeSurvivesWithItsEnds(page: Page, p: Node -> bool, e: Edge)
    requires e in page.edges
    ensures e in Keep(page.edges, Untouched(Omitted(page.nodes, p))) <==>
              forall n :: n in page.nodes && (n.id == e.source || n.id == e.target) ==> n in Keep(page.nodes, p)
  {
    var omitted := Omitted(page.nodes, p);
    if e.source in omitted {
      var n :| n in page.nodes && !p(n) && n.id == e.source;
      assert n !in Keep(page.nodes, p);
    } else if e.target in omitted {
      var n :| n in page.nodes && !p(n) && n.id == e.target;
      assert n !in Keep(page.nodes, p);
    } else {
      assert forall n :: n in page.nodes && !p(n) ==> n.id in omitted;
    }
  }

  /** The nodes of one document share a fate, even if access to it changes while the page is filtered. */
  lemma DocumentSharesFate(page: Page, access: (string, nat) -> bool, calls: seq<string>, a: Node, b: Node)
    requires a in page.nodes && b in page.nodes && Tied(a) && Tied(b) && a.document == b.document
    ensures a in Keep(page.nodes, Visible(access, calls)) <==> b in Keep(page.nodes, Visible(access, calls))
  {
  }

  /** Where node ids do not repeat, the omitted count is the number of nodes dropped. */
  lemma {:induction false} OmittedCounts(nodes: seq<Node>, p: Node -> bool, n: nat)
    requires n <= |nodes| && DistinctNodes(nodes)
    ensures |Omitted(nodes[..n], p)| + |Keep(nodes[..n], p)| == n
  {
    hide Keep, Omitted, DistinctNodes;
    if n > 0 {
      OmittedCounts(nodes, p, n - 1);
      KeepNext(nodes, n - 1, p);
      NotYetOmitted(nodes, p, n - 1);
    } else {
      NothingKept(nodes, p);
    }
  }

  predicate DistinctNodes(nodes: seq<Node>) {
    forall i, j :: 0 <= i < j < |nodes| ==> nodes[i].id != nodes[j].id
  }

  lemma NotYetOmitted(nodes: seq<Node>, p: Node -> bool, n: nat)
    requires n < |nodes| && DistinctNodes(nodes)
    ensures nodes[n].id !in Omitted(nodes[..n], p)
  {
  }
}
