/**
  The lineage modal: a family's versions in order of their numbers, the latest one marked, and each
  superseded version pointing at its successor.
 */
module Lineage {
  import opened Wrappers
  import opened Lifecycle
  import BatchUpload

  datatype Member = Member(id: int, number: int, filename: string, status: Status)

  datatype LineageVersion = LineageVersion(id: int, number: int, filename: string, status: Status, isLatest: bool, supersededBy: Option<int>)

  datatype LineageResponse = LineageResponse(filename: string, versions: seq<LineageVersion>)

  function InsertByNumber(sorted: seq<Member>, v: Member): seq<Member> {
    if sorted == [] || sorted[|sorted| - 1].number <= v.number then sorted + [v]
    else InsertByNumber(sorted[..|sorted| - 1], v) + [sorted[|sorted| - 1]]
  }

  /** `sorted(versions, key=lambda v: v.version_number)` */
  function SortByNumber(versions: seq<Member>): seq<Member> {
    if versions == [] then []
    else InsertByNumber(SortByNumber(versions[..|versions| - 1]), versions[|versions| - 1])
  }

  function MaxNumber(versions: seq<Member>): (m: int)
    requires versions != []
    ensures forall i :: 0 <= i < |versions| ==> versions[i].number <= m
    ensures exists i :: 0 <= i < |versions| && versions[i].number == m
  {
    var last := versions[|versions| - 1].number;
    if |versions| == 1 then
      assert versions[0].number == last;
      last
    else
      var rest := MaxNumber(versions[..|versions| - 1]);
      assert forall i :: 0 <= i < |versions| - 1 ==> versions[i] == versions[..|versions| - 1][i];
      if last > rest then
        assert versions[|versions| - 1].number == last;
        last
      else
        var i :| 0 <= i < |versions| - 1 && versions[..|versions| - 1][i].number == rest;
        assert versions[i].number == rest;
        rest
  }

  /** The version a number is looked up to: the last one listed, as in a dict comprehension. */
  function ByNumber(sorted: seq<Member>, number: int, n: nat): (r: Option<Member>)
    requires n <= |sorted|
    ensures r.None? <==> forall i :: 0 <= i < n ==> sorted[i].number != number
    ensures r.Some? ==> r.value in sorted && r.value.number == number
  {
    if n == 0 then None
    else if sorted[n - 1].number == number then Some(sorted[n - 1])
    else ByNumber(sorted, number, n - 1)
  }

  function FirstWith(sorted: seq<Member>, number: int, n: nat): (r: Option<Member>)
    requires n <= |sorted|
    ensures r.None? <==> forall i :: n <= i < |sorted| ==> sorted[i].number != number
    decreases |sorted| - n
  {
    if n == |sorted| then None
    else if sorted[n].number == number then Some(sorted[n])
    else FirstWith(sorted, number, n + 1)
  }

  /** From n on, position i is the first with this number. */
  predicate FirstAt(members: seq<Member>, number: int, n: nat, i: nat) {
    n <= i < |members| && members[i].number == number && forall k :: n <= k < i ==> members[k].number != number
  }

  function SupersededBy(sorted: seq<Member>, v: Member): Option<int> {
    var successor := ByNumber(sorted, v.number + 1, |sorted|);
    if v.status == Superseded && successor.Some? then Some(successor.value.id) else None
  }

  /** The row of the i-th version by number. */
  function RowOf(sorted: seq<Member>, i: nat): LineageVersion
    requires i < |sorted|
  {
    var v := sorted[i];
    LineageVersion(v.id, v.number, v.filename, v.status, v.number == MaxNumber(sorted), SupersededBy(sorted, v))
  }

  /** `_build_lineage_response`. */
  method BuildLineageResponse(versions: seq<Member>, originalFilename: string) returns (response: LineageResponse)
    ensures versions == [] ==> response == LineageResponse(originalFilename, [])
    ensures versions != [] ==>
              var sorted := SortByNumber(versions);
              && |response.versions| == |sorted| == |versions|
              && (forall i :: 0 <= i < |sorted| ==> response.versions[i] == RowOf(sorted, i))
              && Some(response.filename) == FilenameOf(FirstWith(sorted, MaxNumber(sorted), 0))
    ensures versions != [] ==> exists i :: 0 <= i < |versions| && IsNewest(versions, i) && response.filename == versions[i].filename
  {
    hide InsertByNumber, SortByNumber, MaxNumber, ByNumber, FirstWith, IsNewest;
    SortKeepsMembers(versions);
    var sorted := SortByNumber(versions);
    if sorted == [] {
      return LineageResponse(originalFilename, []);
    }
    ghost var newest := NewestNamesFamily(versions);
    var latest := MaxNumber(sorted);
    var named := FirstWith(sorted, latest, 0);
    var familyFilename := if named.Some? then named.value.filename else originalFilename;
    var byNumber: map<int, Member> := map[];
    for n := 0 to |sorted|
      invariant forall number :: Lookup(byNumber, number) == ByNumber(sorted, number, n)
    {
      ghost var before := byNumber;
      byNumber := byNumber[sorted[n].number := sorted[n]];
      forall number
        ensures Lookup(byNumber, number) == ByNumber(sorted, number, n + 1)
      {
        ByNumberNext(sorted, number, n);
        assert Lookup(before, number) == ByNumber(sorted, number, n);
      }
    }
    var rows: seq<LineageVersion> := [];
    for i := 0 to |sorted|
      invariant |rows| == i && forall j :: 0 <= j < i ==> rows[j] == RowOf(sorted, j)
    {
      var v := sorted[i];
      var supersededBy: Option<int> := None;
      if v.status == Superseded {
        var successor := Lookup(byNumber, v.number + 1);
        if successor.Some? {
          supersededBy := Some(successor.value.id);
        }
      }
      rows := rows + [LineageVersion(v.id, v.number, v.filename, v.status, v.number == latest, supersededBy)];
    }
    return LineageResponse(familyFilename, rows);
  }

  function Lookup(m: map<int, Member>, number: int): Option<Member> {
    if number in m then Some(m[number]) else None
  }

  function FilenameOf(v: Option<Member>): Option<string> {
    if v.Some? then Some(v.value.filename) else None
  }

  lemma ByNumberNext(sorted: seq<Member>, number: int, n: nat)
    requires n < |sorted|
    ensures ByNumber(sorted, number, n + 1) == if sorted[n].number == number then Some(sorted[n]) else ByNumber(sorted, number, n)
  {
  }

  // ----- Sorting -----

  predicate DistinctNumbers(versions: seq<Member>) {
    forall i, j :: 0 <= i < j < |versions| ==> versions[i].number != versions[j].number
  }

  predicate StrictlyAscending(sorted: seq<Member>) {
    forall i :: 0 < i < |sorted| ==> sorted[i - 1].number < sorted[i].number
  }

  lemma {:induction false} InsertAscends(sorted: seq<Member>, v: Member)
    requires StrictlyAscending(sorted) && forall x :: x in sorted ==> x.number != v.number
    ensures StrictlyAscending(InsertByNumber(sorted, v))
    ensures var r := InsertByNumber(sorted, v);
            r[|r| - 1] == if sorted == [] || sorted[|sorted| - 1].number < v.number then v else sorted[|sorted| - 1]
  {
    var n := |sorted| - 1;
    if sorted != [] {
      assert sorted[n] in sorted;
      if sorted[n].number > v.number {
        forall x | x in sorted[..n]
          ensures x in sorted
        {
        }
        InsertAscends(sorted[..n], v);
      }
    }
  }

  lemma {:induction false} SortAscends(versions: seq<Member>)
    requires DistinctNumbers(versions)
    ensures StrictlyAscending(SortByNumber(versions))
  {
    if versions != [] {
      var n := |versions| - 1;
      SortAscends(versions[..n]);
      var sorted := SortByNumber(versions[..n]);
      SortKeepsMembers(versions[..n]);
      forall x | x in sorted
        ensures x.number != versions[n].number
      {
        assert x in multiset(versions[..n]);
        var i :| 0 <= i < n && versions[i] == x;
      }
      InsertAscends(sorted, versions[n]);
    }
  }

  lemma {:induction false} InsertKeepsMembers(sorted: seq<Member>, v: Member)
    ensures multiset(InsertByNumber(sorted, v)) == multiset(sorted) + multiset{v}
    ensures |InsertByNumber(sorted, v)| == |sorted| + 1
  {
    var n := |sorted| - 1;
    if sorted != [] && sorted[n].number > v.number {
      InsertKeepsMembers(sorted[..n], v);
      assert sorted == sorted[..n] + [sorted[n]];
    }
  }

  /** The lineage shows every version once. */
  lemma {:induction false} SortKeepsMembers(versions: seq<Member>)
    ensures multiset(SortByNumber(versions)) == multiset(versions)
    ensures |SortByNumber(versions)| == |versions|
  {
    hide InsertByNumber;
    if versions != [] {
      var n := |versions| - 1;
      SortKeepsMembers(versions[..n]);
      InsertKeepsMembers(SortByNumber(versions[..n]), versions[n]);
      assert versions == versions[..n] + [versions[n]];
    }
  }

  function WithNumber(members: seq<Member>, number: int): seq<Member> {
    if members == [] then []
    else
      var last := members[|members| - 1];
      WithNumber(members[..|members| - 1], number) + if last.number == number then [last] else []
  }

  lemma {:induction false} InsertKeepsOrder(sorted: seq<Member>, v: Member, number: int)
    ensures WithNumber(InsertByNumber(sorted, v), number) == WithNumber(sorted, number) + if v.number == number then [v] else []
  {
    hide WithNumber;
    var n := |sorted| - 1;
    if sorted == [] || sorted[n].number <= v.number {
      WithNumberThen(sorted, v, number);
    } else {
      InsertKeepsOrder(sorted[..n], v, number);
      WithNumberThen(InsertByNumber(sorted[..n], v), sorted[n], number);
      assert sorted == sorted[..n] + [sorted[n]];
      WithNumberThen(sorted[..n], sorted[n], number);
    }
  }

  lemma WithNumberThen(front: seq<Member>, last: Member, number: int)
    ensures WithNumber(front + [last], number) == WithNumber(front, number) + if last.number == number then [last] else []
  {
    assert (front + [last])[..|front|] == front;
  }

  /** The sort is stable: versions with equal numbers keep their order. */
  lemma {:induction false} SortIsStable(versions: seq<Member>, number: int)
    ensures WithNumber(SortByNumber(versions), number) == WithNumber(versions, number)
  {
    hide InsertByNumber;
    if versions != [] {
      var n := |versions| - 1;
      SortIsStable(versions[..n], number);
      InsertKeepsOrder(SortByNumber(versions[..n]), versions[n], number);
    }
  }

  lemma {:induction false} WithNumberFirst(members: seq<Member>, number: int, i: nat)
    requires FirstAt(members, number, 0, i)
    ensures WithNumber(members, number) != [] && WithNumber(members, number)[0] == members[i]
  {
    var n := |members| - 1;
    if i < n {
      WithNumberFirst(members[..n], number, i);
    } else {
      WithNumberNone(members[..n], number);
    }
  }

  lemma {:induction false} WithNumberNone(members: seq<Member>, number: int)
    requires forall k :: 0 <= k < |members| ==> members[k].number != number
    ensures WithNumber(members, number) == []
  {
    if members != [] {
      WithNumberNone(members[..|members| - 1], number);
    }
  }

  /** Version i has the highest number and is the first listed of those that have it. */
  predicate IsNewest(versions: seq<Member>, i: nat) {
    i < |versions| && forall j :: 0 <= j < |versions| ==>
      versions[j].number <= versions[i].number && (versions[j].number == versions[i].number ==> i <= j)
  }

  lemma SameMaximum(versions: seq<Member>)
    requires versions != []
    ensures SortByNumber(versions) != [] && MaxNumber(SortByNumber(versions)) == MaxNumber(versions)
  {
    hide SortByNumber, MaxNumber;
    SortKeepsMembers(versions);
    var sorted := SortByNumber(versions);
    forall i | 0 <= i < |sorted|
      ensures sorted[i] in versions
    {
      assert sorted[i] in multiset(versions);
    }
    forall i | 0 <= i < |versions|
      ensures versions[i] in sorted
    {
      assert versions[i] in multiset(sorted);
    }
    var i :| 0 <= i < |sorted| && sorted[i].number == MaxNumber(sorted);
    var j :| 0 <= j < |versions| && versions[j].number == MaxNumber(versions);
    assert sorted[i] in versions && versions[j] in sorted;
  }

  lemma {:induction false} FirstWithAt(members: seq<Member>, number: int, n: nat) returns (i: nat)
    requires n <= |members| && FirstWith(members, number, n).Some?
    ensures FirstAt(members, number, n, i) && FirstWith(members, number, n) == Some(members[i])
    decreases |members| - n
  {
    if members[n].number == number {
      i := n;
    } else {
      i := FirstWithAt(members, number, n + 1);
    }
  }

  lemma MaximumIsFound(members: seq<Member>)
    requires members != []
    ensures FirstWith(members, MaxNumber(members), 0).Some?
  {
    hide MaxNumber;
  }

  lemma FirstIsKept(versions: seq<Member>, number: int)
    requires FirstWith(versions, number, 0).Some? && FirstWith(SortByNumber(versions), number, 0).Some?
    ensures FirstWith(SortByNumber(versions), number, 0) == FirstWith(versions, number, 0)
  {
    hide SortByNumber, FirstWith, WithNumber, FirstAt;
    var i := FirstWithAt(SortByNumber(versions), number, 0);
    var j := FirstWithAt(versions, number, 0);
    WithNumberFirst(SortByNumber(versions), number, i);
    WithNumberFirst(versions, number, j);
    SortIsStable(versions, number);
  }

  /** The family is named after its newest version. */
  lemma NewestNamesFamily(versions: seq<Member>) returns (i: nat)
    requires versions != []
    ensures SortByNumber(versions) != [] && i < |versions| && IsNewest(versions, i)
    ensures FirstWith(SortByNumber(versions), MaxNumber(SortByNumber(versions)), 0) == Some(versions[i])
  {
    hide SortByNumber, FirstWith;
    SameMaximum(versions);
    MaximumIsFound(versions);
    MaximumIsFound(SortByNumber(versions));
    FirstIsKept(versions, MaxNumber(versions));
    i := FirstWithAt(versions, MaxNumber(versions), 0);
    MaximumIsNewest(versions, i);
  }

  lemma MaximumIsNewest(versions: seq<Member>, i: nat)
    requires versions != [] && FirstAt(versions, MaxNumber(versions), 0, i)
    ensures IsNewest(versions, i)
  {
    hide MaxNumber;
  }

  // ----- What the lineage says -----

  /** A row is latest if no version has a higher number. */
  lemma LatestMeans(sorted: seq<Member>, i: nat)
    requires i < |sorted|
    ensures RowOf(sorted, i).isLatest <==> forall j :: 0 <= j < |sorted| ==> sorted[j].number <= sorted[i].number
  {
    hide MaxNumber, SupersededBy;
  }

  /** A superseded row names the last listed version of the next number, and nobody if there is none. */
  lemma SuccessorMeans(sorted: seq<Member>, i: nat) returns (j: nat)
    requires i < |sorted|
    ensures var v, row := sorted[i], RowOf(sorted, i);
            && row.id == v.id && row.number == v.number && row.filename == v.filename && row.status == v.status
            && (v.status != Superseded || (forall k :: 0 <= k < |sorted| ==> sorted[k].number != v.number + 1) ==> row.supersededBy == None)
            && (row.supersededBy.Some? ==> LastAt(sorted, v.number + 1, j) && row.supersededBy == Some(sorted[j].id))
            && (row.supersededBy.None? ==> v.status != Superseded || forall k :: 0 <= k < |sorted| ==> sorted[k].number != v.number + 1)
  {
    hide MaxNumber, ByNumber, LastAt;
    j := 0;
    if ByNumber(sorted, sorted[i].number + 1, |sorted|).Some? {
      j := ByNumberLast(sorted, sorted[i].number + 1, |sorted|);
    }
  }

  predicate LastAt(members: seq<Member>, number: int, i: nat) {
    i < |members| && members[i].number == number && forall k :: i < k < |members| ==> members[k].number != number
  }

  lemma {:induction false} ByNumberLast(sorted: seq<Member>, number: int, n: nat) returns (j: nat)
    requires n <= |sorted| && (forall k :: n <= k < |sorted| ==> sorted[k].number != number) && ByNumber(sorted, number, n).Some?
    ensures LastAt(sorted, number, j) && ByNumber(sorted, number, n) == Some(sorted[j])
  {
    if sorted[n - 1].number == number {
      j := n - 1;
    } else {
      j := ByNumberLast(sorted, number, n - 1);
    }
  }

  /** Distinct numbers: the last row is latest, and no other. */
  lemma ExactlyOneLatest(versions: seq<Member>, i: nat)
    requires DistinctNumbers(versions) && i < |SortByNumber(versions)|
    ensures RowOf(SortByNumber(versions), i).isLatest <==> i == |SortByNumber(versions)| - 1
  {
    SortAscends(versions);
    var sorted := SortByNumber(versions);
    hide SortByNumber, MaxNumber, SupersededBy, DistinctNumbers;
    var m :| 0 <= m < |sorted| && sorted[m].number == MaxNumber(sorted);
    NumbersSpread(sorted, m, |sorted| - 1);
    NumbersSpread(sorted, i, |sorted| - 1);
  }

  lemma {:induction false} NumbersSpread(sorted: seq<Member>, i: nat, j: nat)
    requires StrictlyAscending(sorted) && i <= j < |sorted|
    ensures sorted[j].number - sorted[i].number >= j - i
  {
    if i < j {
      NumbersSpread(sorted, i, j - 1);
    }
  }

  lemma SuccessorIsNext(sorted: seq<Member>, i: nat)
    requires StrictlyAscending(sorted) && i < |sorted|
    ensures ByNumber(sorted, sorted[i].number + 1, |sorted|) ==
              if i + 1 < |sorted| && sorted[i + 1].number == sorted[i].number + 1 then Some(sorted[i + 1]) else None
  {
    hide ByNumber;
    var found := ByNumber(sorted, sorted[i].number + 1, |sorted|);
    if found.Some? {
      var j :| 0 <= j < |sorted| && sorted[j] == found.value;
      if j < i {
        NumbersSpread(sorted, j, i);
      } else {
        NumbersSpread(sorted, i, j);
      }
    }
  }

  /**
    A superseded version points at its next-higher existing sibling, as documented, if and only if the
    numbering has no gap there: across a gap the code finds nobody, since it looks up number + 1 only.
   */
  lemma PointsAtNextSiblingUnlessGap(versions: seq<Member>, i: nat)
    requires DistinctNumbers(versions) && i < |SortByNumber(versions)| && SortByNumber(versions)[i].status == Superseded
    ensures var sorted := SortByNumber(versions);
            var nextSibling := if i + 1 < |sorted| then Some(sorted[i + 1].id) else None;
            RowOf(sorted, i).supersededBy == nextSibling <==>
              i + 1 == |sorted| || sorted[i + 1].number == sorted[i].number + 1
  {
    hide SortByNumber, MaxNumber, ByNumber, DistinctNumbers, StrictlyAscending, SupersededBy, RowOf;
    SortAscends(versions);
    PointsAtNextRowUnlessGap(SortByNumber(versions), i);
  }

  lemma PointsAtNextRowUnlessGap(sorted: seq<Member>, i: nat)
    requires StrictlyAscending(sorted) && i < |sorted| && sorted[i].status == Superseded
    ensures var nextSibling := if i + 1 < |sorted| then Some(sorted[i + 1].id) else None;
            RowOf(sorted, i).supersededBy == nextSibling <==>
              i + 1 == |sorted| || sorted[i + 1].number == sorted[i].number + 1
  {
    hide MaxNumber, ByNumber, StrictlyAscending;
    SuccessorIsNext(sorted, i);
  }

  /** After a gap no successor is found. */
  lemma GapLosesSuccessor() returns (versions: seq<Member>)
    ensures DistinctNumbers(versions) && |SortByNumber(versions)| == 2
    ensures SortByNumber(versions)[0].status == Superseded && RowOf(SortByNumber(versions), 0).supersededBy == None
  {
    var first, third := Member(1, 1, "a.pdf", Superseded), Member(3, 3, "a.pdf", Validated);
    versions := [first, third];
    assert versions[..1] == [first] && [first][..0] == [];
    assert SortByNumber([]) == [];
    assert SortByNumber([first]) == InsertByNumber([], first) == [first];
    assert SortByNumber(versions) == InsertByNumber([first], third) == [first, third];
  }

  /** Rows at these positions name each other as successors one by one. */
  predicate Follows(sorted: seq<Member>, path: seq<nat>) {
    && path != [] && (forall k :: 0 <= k < |path| ==> path[k] < |sorted|)
    && forall k :: 0 <= k < |path| - 1 ==> RowOf(sorted, path[k]).supersededBy == Some(sorted[path[k + 1]].id)
  }

  predicate DistinctIds(versions: seq<Member>) {
    forall i, j :: 0 <= i < j < |versions| ==> versions[i].id != versions[j].id
  }

  /** Following the successors goes up one number and one row at a time, so it ends within the lineage. */
  lemma {:induction false} SuccessorsClimb(versions: seq<Member>, path: seq<nat>, k: nat)
    requires DistinctNumbers(versions) && DistinctIds(SortByNumber(versions)) && Follows(SortByNumber(versions), path) && k < |path|
    ensures path[k] == path[0] + k < |versions|
    ensures SortByNumber(versions)[path[k]].number == SortByNumber(versions)[path[0]].number + k
  {
    hide DistinctNumbers, SortByNumber, MaxNumber, ByNumber, StrictlyAscending;
    SortAscends(versions);
    SortKeepsMembers(versions);
    if k > 0 {
      SuccessorsClimb(versions, path, k - 1);
      var sorted := SortByNumber(versions);
      SuccessorIsNext(sorted, path[k - 1]);
      assert RowOf(sorted, path[k - 1]).supersededBy == Some(sorted[path[(k - 1) + 1]].id);
    }
  }

  // ----- Families built by uploads -----

  /** The family's members among the first n catalog writes, whatever statuses they have by now. */
  function FamilyOf(versions: seq<BatchUpload.Entry>, documentId: int, statuses: nat -> Status, n: nat): seq<Member>
    requires n <= |versions|
  {
    if n == 0 then []
    else
      var v := versions[n - 1];
      FamilyOf(versions, documentId, statuses, n - 1)
      + if v.documentId == documentId then [Member(n - 1, v.number, v.filename, statuses(n - 1))] else []
  }

  lemma {:induction false} FamilyIsNumbered(versions: seq<BatchUpload.Entry>, documentId: int, statuses: nat -> Status, n: nat)
    requires n <= |versions| && BatchUpload.Numbered(versions)
    ensures var family := FamilyOf(versions, documentId, statuses, n);
            && |family| == BatchUpload.Members(versions, documentId, n)
            && forall i :: 0 <= i < |family| ==> family[i].number == i + 1
  {
    if n > 0 {
      FamilyIsNumbered(versions, documentId, statuses, n - 1);
    }
  }

  lemma {:induction false} SortedAlready(family: seq<Member>)
    requires forall i :: 0 <= i < |family| ==> family[i].number == i + 1
    ensures SortByNumber(family) == family
  {
    if family != [] {
      var n := |family| - 1;
      SortedAlready(family[..n]);
      assert family == family[..n] + [family[n]];
    }
  }

  /** Where uploads did the numbering no gap exists, so every superseded version points at its next sibling. */
  lemma UploadedFamiliesPointOnward(versions: seq<BatchUpload.Entry>, documentId: int, statuses: nat -> Status, i: nat)
    requires BatchUpload.Numbered(versions) && i < |FamilyOf(versions, documentId, statuses, |versions|)|
    ensures var family := FamilyOf(versions, documentId, statuses, |versions|);
            && SortByNumber(family) == family
            && RowOf(family, i).isLatest == (i == |family| - 1)
            && RowOf(family, i).supersededBy
               == if family[i].status == Superseded && i + 1 < |family| then Some(family[i + 1].id) else None
  {
    hide FamilyOf, SortByNumber, MaxNumber, ByNumber;
    var family := FamilyOf(versions, documentId, statuses, |versions|);
    FamilyIsNumbered(versions, documentId, statuses, |versions|);
    SortedAlready(family);
    ExactlyOneLatest(family, i);
    SuccessorIsNext(family, i);
  }
}
